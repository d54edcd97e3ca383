/** Which messages can be delivered at all, as far as the order in which their datagrams arrive decides it. */
module SocketDelivery {
  import opened UdpSerial
  import opened Delivery
  import opened SocketLoop

  predicate NoRepeat(part: seq<Event>, id: nat) {
    forall p, q | 0 <= p < q < |part| && part[p].Packet? && part[p].id == id :: part[p] != part[q]
  }

  /** Every packet of the message comes between `a` and `b`, and none of them twice. */
  ghost predicate Stretch(sent: Sent, arrived: seq<Event>, id: nat, a: nat, b: nat)
    requires id in sent && Fits(sent[id]) && a <= b <= |arrived|
  {
    && (forall i: nat | i <= Top(sent[id]) :: Packet(id, i) in arrived[a..b])
    && NoRepeat(arrived[a..b], id)
  }

  /** Datagrams, each a packet of a message sent or junk. */
  ghost predicate Datagrams(sent: Sent, arrived: seq<Event>) {
    forall n | 0 <= n < |arrived| :: Legal(sent, arrived[n]) && !arrived[n].Timeout?
  }

  // ----- a delivery needs a stretch

  lemma {:induction false} ReadsConcat(a: seq<Event>, b: seq<Event>)
    ensures Reads(a + b) == Reads(a) + Reads(b)
  {
    if b == [] {
      assert a + b == a;
    } else {
      ReadsConcat(a, b[..|b| - 1]);
      assert (a + b)[..|a + b| - 1] == a + b[..|b| - 1];
    }
  }

  lemma {:induction false} ReadsElements(log: seq<Event>)
    ensures forall e :: e in Reads(log) <==> e in log && !e.Timeout?
  {
    if log != [] {
      ReadsElements(log[..|log| - 1]);
      assert log == log[..|log| - 1] + [log[|log| - 1]];
    }
  }

  lemma {:induction false} ReadsNoRepeat(log: seq<Event>, id: nat)
    requires NoRepeat(log, id)
    ensures NoRepeat(Reads(log), id)
  {
    if log != [] {
      var init, last := log[..|log| - 1], log[|log| - 1];
      ReadsNoRepeat(init, id);
      ReadsElements(init);
      forall p | 0 <= p < |Reads(init)| && Reads(init)[p].Packet? && Reads(init)[p].id == id
        ensures Reads(init)[p] != last
      {
        assert Reads(init)[p] in init;
      }
    }
  }

  /** The run up to the first delivery. */
  lemma {:induction false} FirstDelivery(sent: Sent, log: seq<Event>, id: nat) returns (n: nat)
    requires LegalRun(sent, log) && Deliveries(sent, log, id) > 0
    ensures n < |log| && LegalRun(sent, log[..n]) && LegalRun(sent, log[..n + 1])
    ensures Deliveries(sent, log[..n], id) == 0 && Deliveries(sent, log[..n + 1], id) > 0
  {
    assert log != [];
    var init := log[..|log| - 1];
    LegalPrefix(sent, log, |log| - 1);
    hide LegalRun, Deliveries, After;
    if Deliveries(sent, init, id) > 0 {
      n := FirstDelivery(sent, init, id);
      assert init[..n] == log[..n] && init[..n + 1] == log[..n + 1];
    } else {
      n := |log| - 1;
      assert log[..n + 1] == log;
    }
  }

  /** Before the first delivery nothing is read twice without a timeout in between. */
  lemma ReadOnce(sent: Sent, log: seq<Event>, id: nat, n: nat, p: nat, q: nat)
    requires LegalRun(sent, log) && id in sent && Fits(sent[id])
    requires p < q <= n < |log| && log[p] == log[q] && log[p].Packet? && log[p].id == id
    requires LegalRun(sent, log[..n]) && Deliveries(sent, log[..n], id) == 0
    ensures Timeout(id) in log[p..q]
  {
    var run := log[..q];
    LegalPrefix(sent, log, q);
    LegalPrefix(sent, log, p);
    assert run[..p] == log[..p] && run[p..] == log[p..q] && run[p..][0] == log[p];
    DeliveriesGrow(sent, log[..n], q, id);
    assert log[..n][..q] == run;
    DeliveriesGrow(sent, run, p, id);
    if Timeout(id) !in log[p..q] {
      ArrivedIsWaiting(sent, run, p, id, log[p].i);
    }
  }

  lemma NothingReadTwice(sent: Sent, log: seq<Event>, id: nat, n: nat, from: nat)
    requires LegalRun(sent, log) && id in sent && Fits(sent[id]) && from <= n < |log|
    requires LegalRun(sent, log[..n]) && Deliveries(sent, log[..n], id) == 0
    requires Timeout(id) !in log[from..n + 1]
    ensures NoRepeat(log[from..n + 1], id)
  {
    hide LegalRun, Deliveries, Fits;
    forall p, q | from <= p < q <= n && log[p] == log[q] && log[p].Packet?
      ensures log[p].id != id
    {
      if log[p].id == id {
        ReadOnce(sent, log, id, n, p, q);
        TimeoutBetween(log, id, from, p, q, n + 1);
      }
    }
  }

  lemma TimeoutBetween(log: seq<Event>, id: nat, from: nat, p: nat, q: nat, to: nat)
    requires from <= p <= q <= to <= |log|
    ensures Timeout(id) in log[p..q] ==> Timeout(id) in log[from..to]
  {
    if Timeout(id) in log[p..q] {
      var j :| 0 <= j < q - p && log[p..q][j] == Timeout(id);
      assert log[from..to][p - from + j] == Timeout(id);
    }
  }

  lemma NoRepeatMeans(part: seq<Event>, id: nat)
    requires forall p, q | 0 <= p < q < |part| && part[p].Packet? && part[p].id == id :: part[p] != part[q]
    ensures NoRepeat(part, id)
  {
  }

  /** The window of the first delivery holds no repeat. */
  lemma FirstWindow(sent: Sent, log: seq<Event>, id: nat) returns (from: nat, to: nat)
    requires LegalRun(sent, log) && id in sent && Fits(sent[id]) && Deliveries(sent, log, id) > 0
    ensures from <= to <= |log| && Window(sent, log, id, from, to) && NoRepeat(log[from..to], id)
  {
    hide LegalRun, Deliveries, Fits, NoRepeat, Top;
    var n := FirstDelivery(sent, log, id);
    to := n + 1;
    var run := log[..to];
    assert run[..|run| - 1] == log[..n];
    from := CompletedInWindow(sent, run, id);
    assert run[from..to] == log[from..to];
    if from == to {
      NoRepeatMeans(log[from..to], id);
    } else {
      NothingReadTwice(sent, log, id, n, from);
    }
  }

  lemma Middle(x: seq<Event>, y: seq<Event>, z: seq<Event>)
    ensures (x + y + z)[|x|..|x| + |y|] == y
  {
  }

  lemma Cut(log: seq<Event>, from: nat, to: nat)
    requires from <= to <= |log|
    ensures log[..from] + log[from..to] + log[to..] == log
  {
  }

  /** What is read within a part of the log is a part of what arrived. */
  lemma PartArrived(l: Loop, from: nat, to: nat) returns (a: nat, b: nat)
    requires l.arrived == Reads(l.log) + l.socket && from <= to <= |l.log|
    ensures a <= b <= |l.arrived| && l.arrived[a..b] == Reads(l.log[from..to])
  {
    hide *;
    var x, y, z := l.log[..from], l.log[from..to], l.log[to..];
    Cut(l.log, from, to);
    ReadsConcat(x, y);
    ReadsConcat(x + y, z);
    a, b := |Reads(x)|, |Reads(x)| + |Reads(y)|;
    Middle(Reads(x), Reads(y), Reads(z) + l.socket);
    assert l.arrived == Reads(x) + Reads(y) + (Reads(z) + l.socket);
  }

  lemma DeliveryNeedsStretch(sent: Sent, l: Loop, id: nat) returns (a: nat, b: nat)
    requires LoopOk(sent, l) && id in sent && Fits(sent[id]) && Deliveries(sent, l.log, id) > 0
    ensures a <= b <= |l.arrived| && Stretch(sent, l.arrived, id, a, b)
  {
    hide LegalRun, Deliveries, After, Reads, Fits, Top, NoRepeat, Legal;
    var from, to := FirstWindow(sent, l.log, id);
    a, b := PartArrived(l, from, to);
    ReadsElements(l.log[from..to]);
    ReadsNoRepeat(l.log[from..to], id);
  }

  // ----- a stretch is enough

  /** A datagram, after a timeout of its message unless that is kept. */
  function Next(e: Event, keep: set<nat>): seq<Event> {
    if e.Packet? && e.id !in keep then [Timeout(e.id), e] else [e]
  }

  /** The log, when the datagrams have been read in this way. */
  function Spaced(log: seq<Event>, part: seq<Event>, keep: set<nat>): seq<Event> {
    if part == [] then log else Spaced(log, part[..|part| - 1], keep) + Next(part[|part| - 1], keep)
  }

  lemma {:induction false} SpacedElements(log: seq<Event>, part: seq<Event>, keep: set<nat>)
    ensures log <= Spaced(log, part, keep)
    ensures forall e | e in part :: e in Spaced(log, part, keep)[|log|..]
    ensures forall e | e in Spaced(log, part, keep)[|log|..] :: e in part || (e.Timeout? && e.id !in keep)
  {
    if part != [] {
      var init, e := part[..|part| - 1], part[|part| - 1];
      SpacedElements(log, init, keep);
      assert part == init + [e];
      assert Spaced(log, part, keep)[|log|..] == Spaced(log, init, keep)[|log|..] + Next(e, keep);
    }
  }

  lemma OneMore(sent: Sent, log: seq<Event>, e: Event)
    requires LegalRun(sent, log) && Legal(sent, e) && Readable(After(sent, log), e)
    ensures LegalRun(sent, log + [e])
    ensures Reads(log + [e]) == Reads(log) + if e.Timeout? then [] else [e]
    ensures forall k, i | Waiting(After(sent, log + [e]), k, i) :: Waiting(After(sent, log), k, i) || e == Packet(k, i)
    ensures e.Timeout? ==> e.id !in After(sent, log + [e])
  {
    LogGrows(sent, log, e);
    var before, after := After(sent, log), After(sent, log + [e]);
    hide LegalRun, After;
    forall k, i | Waiting(after, k, i)
      ensures Waiting(before, k, i) || e == Packet(k, i)
    {
      assert EntryOk(sent, after, k);
      StepForMessage(sent, before, e, k, i);
    }
  }

  lemma NoRepeatInit(part: seq<Event>, id: nat)
    requires part != [] && NoRepeat(part, id)
    ensures NoRepeat(part[..|part| - 1], id)
    ensures var e := part[|part| - 1]; e.Packet? && e.id == id ==> e !in part[..|part| - 1]
  {
  }

  lemma LastOff(x: seq<Event>, part: seq<Event>)
    requires part != []
    ensures x + part[..|part| - 1] + [part[|part| - 1]] == x + part
  {
  }

  lemma {:induction false} SpacedReads(sent: Sent, log: seq<Event>, part: seq<Event>, keep: set<nat>)
    requires Datagrams(sent, part)
    ensures Reads(Spaced(log, part, keep)) == Reads(log) + part
  {
    if part == [] {
      hide Reads;
    } else {
      var init, e := part[..|part| - 1], part[|part| - 1];
      assert !e.Timeout? && Datagrams(sent, init);
      assert Spaced(log, part, keep) == Spaced(log, init, keep) + Next(e, keep);
      hide *;
      SpacedReads(sent, log, init, keep);
      ReadsConcat(Spaced(log, init, keep), Next(e, keep));
      NextReads(e, keep);
      LastOff(Reads(log), part);
    }
  }

  lemma ReadsOne(e: Event)
    ensures Reads([e]) == if e.Timeout? then [] else [e]
  {
    assert [e][..0] == [];
  }

  lemma NextReads(e: Event, keep: set<nat>)
    requires !e.Timeout?
    ensures Reads(Next(e, keep)) == [e]
  {
    hide Reads;
    ReadsOne(e);
    if e.Packet? {
      ReadsOne(Timeout(e.id));
      ReadsConcat([Timeout(e.id)], [e]);
      assert [Timeout(e.id)] + [e] == [Timeout(e.id), e];
    }
  }

  /** Read in this way, nothing is in the way: what could be is only a repeat of a message that is kept. */
  lemma {:induction false} SpacedIsLegal(sent: Sent, log: seq<Event>, part: seq<Event>, keep: set<nat>)
    requires LegalRun(sent, log) && Datagrams(sent, part)
    requires forall k | k in keep :: k !in After(sent, log) && NoRepeat(part, k)
    ensures LegalRun(sent, Spaced(log, part, keep))
    ensures forall k, i: nat | k in keep && Waiting(After(sent, Spaced(log, part, keep)), k, i) :: Packet(k, i) in part
  {
    if part != [] {
      var init, e := part[..|part| - 1], part[|part| - 1];
      assert Legal(sent, e) && !e.Timeout? && Datagrams(sent, init);
      assert e in part && forall x | x in init :: x in part;
      forall k | k in keep
        ensures NoRepeat(init, k) && (e.Packet? && e.id == k ==> e !in init)
      {
        NoRepeatInit(part, k);
      }
      hide LegalRun, After, Legal, NoRepeat, Waiting, Readable, Datagrams;
      SpacedIsLegal(sent, log, init, keep);
      SpacedStep(sent, Spaced(log, init, keep), init, e, keep);
    }
  }

  lemma SpacedStep(sent: Sent, run: seq<Event>, init: seq<Event>, e: Event, keep: set<nat>)
    requires LegalRun(sent, run) && Legal(sent, e) && !e.Timeout?
    requires e.Packet? && e.id in keep ==> e !in init
    requires forall k, i: nat | k in keep && Waiting(After(sent, run), k, i) :: Packet(k, i) in init
    ensures LegalRun(sent, run + Next(e, keep))
    ensures forall k, i: nat | k in keep && Waiting(After(sent, run + Next(e, keep)), k, i) ::
              Packet(k, i) in init || e == Packet(k, i)
  {
    hide LegalRun, After;
    if e.Packet? && e.id !in keep {
      OneMore(sent, run, Timeout(e.id));
      OneMore(sent, run + [Timeout(e.id)], e);
      assert run + Next(e, keep) == run + [Timeout(e.id)] + [e];
    } else {
      OneMore(sent, run, e);
    }
  }

  /** Up to the stretch everything times out, and so does what is left of the message then. */
  function Plan(arrived: seq<Event>, id: nat, a: nat, b: nat): seq<Event>
    requires a <= b <= |arrived|
  {
    Spaced(Spaced([], arrived[..a], {}) + [Timeout(id)], arrived[a..b], {id})
  }

  lemma PlanIsLegal(sent: Sent, arrived: seq<Event>, id: nat, a: nat, b: nat)
    requires SentOk(sent) && Datagrams(sent, arrived) && a <= b <= |arrived| && NoRepeat(arrived[a..b], id)
    ensures LegalRun(sent, Plan(arrived, id, a, b))
  {
    var before := Spaced([], arrived[..a], {});
    assert LegalRun(sent, []) && Datagrams(sent, arrived[..a]) && Datagrams(sent, arrived[a..b]);
    hide NoRepeat, LegalRun, After, Spaced, Legal, Readable, Waiting, Datagrams;
    SpacedIsLegal(sent, [], arrived[..a], {});
    OneMore(sent, before, Timeout(id));
    SpacedIsLegal(sent, before + [Timeout(id)], arrived[a..b], {id});
  }

  lemma PlanReads(sent: Sent, arrived: seq<Event>, id: nat, a: nat, b: nat)
    requires Datagrams(sent, arrived) && a <= b <= |arrived|
    ensures Reads(Plan(arrived, id, a, b)) + arrived[b..] == arrived
  {
    var before := Spaced([], arrived[..a], {});
    assert Datagrams(sent, arrived[..a]) && Datagrams(sent, arrived[a..b]) && Reads([]) == [];
    hide Spaced, Reads, Datagrams, Legal;
    SpacedReads(sent, [], arrived[..a], {});
    ReadsConcat(before, [Timeout(id)]);
    ReadsOne(Timeout(id));
    SpacedReads(sent, before + [Timeout(id)], arrived[a..b], {id});
    AddNothing(arrived[..a]);
    Cut(arrived, a, b);
  }

  lemma AddNothing(x: seq<Event>)
    ensures [] + x == x + [] == x
  {
  }

  /** The loop when it has read so far. */
  ghost function Planned(sent: Sent, arrived: seq<Event>, id: nat, a: nat, b: nat): Loop
    requires a <= b <= |arrived| && LegalRun(sent, Plan(arrived, id, a, b))
  {
    Loop(After(sent, Plan(arrived, id, a, b)), arrived[b..], Plan(arrived, id, a, b), arrived)
  }

  lemma PlannedIsOk(sent: Sent, arrived: seq<Event>, id: nat, a: nat, b: nat)
    requires a <= b <= |arrived| && Datagrams(sent, arrived) && LegalRun(sent, Plan(arrived, id, a, b))
    ensures LoopOk(sent, Planned(sent, arrived, id, a, b))
  {
    PlanReads(sent, arrived, id, a, b);
    hide Plan, Reads, LegalRun, After, Legal;
  }

  lemma SpacedWindow(sent: Sent, log: seq<Event>, part: seq<Event>, id: nat)
    requires id in sent && Fits(sent[id]) && Datagrams(sent, part)
    requires forall i: nat | i <= Top(sent[id]) :: Packet(id, i) in part
    ensures var plan := Spaced(log, part, {id});
            |log| <= |plan| && Window(sent, plan, id, |log|, |plan|)
  {
    SpacedElements(log, part, {id});
    assert forall e | e in part :: !e.Timeout?;
    hide Fits, Top, Spaced, Legal, Datagrams;
    var plan := Spaced(log, part, {id});
    assert plan[|log|..|plan|] == plan[|log|..];
  }

  lemma PlanDelivers(sent: Sent, arrived: seq<Event>, id: nat, a: nat, b: nat)
    requires id in sent && Fits(sent[id]) && Datagrams(sent, arrived)
    requires a <= b <= |arrived| && Stretch(sent, arrived, id, a, b)
    requires LegalRun(sent, Plan(arrived, id, a, b))
    ensures Deliveries(sent, Plan(arrived, id, a, b), id) > 0
  {
    var plan := Plan(arrived, id, a, b);
    var before := Spaced([], arrived[..a], {}) + [Timeout(id)];
    assert Datagrams(sent, arrived[a..b]);
    assert forall i: nat | i <= Top(sent[id]) :: Packet(id, i) in arrived[a..b];
    assert plan == Spaced(before, arrived[a..b], {id});
    hide *;
    SpacedWindow(sent, before, arrived[a..b], id);
    WindowDelivers(sent, plan, id, |before|, |plan|);
  }

  // ----- the loop can come to be in any state that is in order

  lemma RunsFrom(sent: Sent, l: Loop, acts: seq<Act>, m: Loop)
    requires LoopOk(sent, l)
    ensures acts == [] ==> (Runs(sent, l, acts, m) <==> l == m)
    ensures acts != [] && Possible(sent, l, acts[0]) ==> LoopOk(sent, Acted(sent, l, acts[0]))
    ensures acts != [] ==> (Runs(sent, l, acts, m) <==>
                              Possible(sent, l, acts[0]) && Runs(sent, Acted(sent, l, acts[0]), acts[1..], m))
  {
    if acts != [] && Possible(sent, l, acts[0]) {
      ActKeepsOk(sent, l, acts[0]);
    }
  }

  lemma Pushed(acts: seq<Act>, act: Act)
    ensures acts != [] ==> (acts + [act])[0] == acts[0] && (acts + [act])[1..] == acts[1..] + [act]
    ensures acts == [] ==> (acts + [act])[0] == act && (acts + [act])[1..] == []
  {
  }

  lemma {:induction false} RunsPush(sent: Sent, l: Loop, acts: seq<Act>, m: Loop, act: Act)
    requires LoopOk(sent, l) && Runs(sent, l, acts, m) && LoopOk(sent, m) && Possible(sent, m, act)
    ensures LoopOk(sent, Acted(sent, m, act)) && Runs(sent, l, acts + [act], Acted(sent, m, act))
    decreases |acts|
  {
    hide *;
    ActKeepsOk(sent, m, act);
    var n := Acted(sent, m, act);
    RunsFrom(sent, l, acts, m);
    RunsFrom(sent, l, acts + [act], n);
    Pushed(acts, act);
    if acts == [] {
      RunsFrom(sent, n, [], n);
    } else {
      RunsPush(sent, Acted(sent, l, acts[0]), acts[1..], m, act);
    }
  }

  lemma {:induction false} ArriveAll(sent: Sent, arrived: seq<Event>) returns (acts: seq<Act>)
    requires SentOk(sent) && Datagrams(sent, arrived)
    ensures LoopOk(sent, IDLE) && LoopOk(sent, Loop(map[], arrived, [], arrived))
    ensures Runs(sent, IDLE, acts, Loop(map[], arrived, [], arrived))
  {
    StartRuns(sent, [], IDLE);
    if arrived == [] {
      acts := [];
    } else {
      var init, e := arrived[..|arrived| - 1], arrived[|arrived| - 1];
      assert Datagrams(sent, init) && Possible(sent, Loop(map[], init, [], init), Arrive(e)) && init + [e] == arrived;
      hide LoopOk, Legal;
      acts := ArriveAll(sent, init);
      RunsPush(sent, IDLE, acts, Loop(map[], init, [], init), Arrive(e));
      acts := acts + [Arrive(e)];
    }
  }

  /** What has arrived may have done so before anything was read. */
  lemma {:induction false} OkIsReached(sent: Sent, l: Loop) returns (acts: seq<Act>)
    requires LoopOk(sent, l)
    ensures LoopOk(sent, IDLE) && Runs(sent, IDLE, acts, l)
    decreases |l.log|
  {
    if l.log == [] {
      assert l.arrived == l.socket;
      acts := ArriveAll(sent, l.arrived);
    } else {
      var m, act := Earlier(sent, l);
      acts := OkIsReached(sent, m);
      RunsPush(sent, IDLE, acts, m, act);
      acts := acts + [act];
    }
  }

  /** Before the last entry of the log. */
  ghost function Before(sent: Sent, l: Loop): Loop
    requires l.log != [] && LegalRun(sent, l.log[..|l.log| - 1])
  {
    var log, e := l.log[..|l.log| - 1], l.log[|l.log| - 1];
    Loop(After(sent, log), (if e.Timeout? then [] else [e]) + l.socket, log, l.arrived)
  }

  lemma BeforeIsOk(sent: Sent, l: Loop)
    requires LoopOk(sent, l) && l.log != []
    ensures LegalRun(sent, l.log[..|l.log| - 1]) && LoopOk(sent, Before(sent, l))
  {
    var log, e := l.log[..|l.log| - 1], l.log[|l.log| - 1];
    LegalPrefix(sent, l.log, |l.log| - 1);
    var front := if e.Timeout? then [] else [e];
    assert Reads(l.log) == Reads(log) + front;
    assert LegalRun(sent, log) && Legal(sent, e);
    hide LegalRun, After, Reads, Legal;
    Together(Reads(log), front, l.socket);
    forall n | 0 <= n < |front + l.socket|
      ensures Legal(sent, (front + l.socket)[n]) && !(front + l.socket)[n].Timeout?
    {
      assert n >= |front| ==> (front + l.socket)[n] == l.socket[n - |front|];
    }
  }

  lemma Together(x: seq<Event>, y: seq<Event>, z: seq<Event>)
    ensures x + y + z == x + (y + z)
  {
  }

  lemma Earlier(sent: Sent, l: Loop) returns (m: Loop, act: Act)
    requires LoopOk(sent, l) && l.log != []
    ensures LoopOk(sent, m) && Possible(sent, m, act) && Acted(sent, m, act) == l && |m.log| < |l.log|
  {
    BeforeIsOk(sent, l);
    m := Before(sent, l);
    var e := l.log[|l.log| - 1];
    act := if e.Timeout? then Expire(e.id) else TakeTurn;
    LegalPrefix(sent, l.log, |l.log| - 1);
    assert m.log + [e] == l.log;
    LogGrows(sent, m.log, e);
    if e.Timeout? {
      ExpiredAgain(sent, l, m, e.id);
    } else {
      ReadAgain(sent, l, m, e);
    }
  }

  lemma ExpiredAgain(sent: Sent, l: Loop, m: Loop, id: nat)
    requires LoopOk(sent, m) && l.log == m.log + [Timeout(id)] && l.arrived == m.arrived && m.socket == [] + l.socket
    requires Step(sent, m.table, Timeout(id)).table == l.table
    ensures Acted(sent, m, Expire(id)) == l
  {
    TimeoutsAreLegal(sent, m, id);
    hide LoopOk, Step;
    assert [] + l.socket == l.socket;
  }

  lemma ReadAgain(sent: Sent, l: Loop, m: Loop, e: Event)
    requires LoopOk(sent, m) && l.log == m.log + [e] && l.arrived == m.arrived && m.socket == [e] + l.socket
    requires Legal(sent, e) && Readable(m.table, e) && Step(sent, m.table, e).table == l.table
    ensures Possible(sent, m, TakeTurn) && Acted(sent, m, TakeTurn) == l
  {
    hide Step, Reads, LegalRun, After, Legal, Readable;
    assert m.socket[1..] == l.socket && m.socket[0] == e;
  }

  // ----- the condition

  /** For some timing of turns and timeouts, the message is delivered after these arrivals. */
  ghost predicate Deliverable(sent: Sent, arrived: seq<Event>, id: nat)
    requires SentOk(sent) && id in sent
  {
    StartRuns(sent, [], IDLE);
    exists acts, l ::
      && Runs(sent, IDLE, acts, l) && l.arrived == arrived
      && LegalRun(sent, l.log) && Deliveries(sent, l.log, id) > 0
  }

  /** A message can be delivered exactly when somewhere among the arrivals all its packets come with no repeat of one
      of them. What else arrives does not matter. */
  lemma DeliverableIffStretch(sent: Sent, arrived: seq<Event>, id: nat)
    requires SentOk(sent) && id in sent && Fits(sent[id]) && Datagrams(sent, arrived)
    ensures Deliverable(sent, arrived, id)
       <==> exists a: nat, b: nat :: a <= b <= |arrived| && Stretch(sent, arrived, id, a, b)
  {
    StartRuns(sent, [], IDLE);
    if a: nat, b: nat :| a <= b <= |arrived| && Stretch(sent, arrived, id, a, b) {
      PlanIsLegal(sent, arrived, id, a, b);
      PlannedIsOk(sent, arrived, id, a, b);
      PlanDelivers(sent, arrived, id, a, b);
      var l := Planned(sent, arrived, id, a, b);
      var acts := OkIsReached(sent, l);
    }
    if acts, l :| Runs(sent, IDLE, acts, l) && l.arrived == arrived
                  && LegalRun(sent, l.log) && Deliveries(sent, l.log, id) > 0 {
      RunKeepsOk(sent, IDLE, acts, l);
      var a, b := DeliveryNeedsStretch(sent, l, id);
    }
  }

  function Numbered(id: nat, numbers: seq<nat>): seq<Event> {
    seq(|numbers|, n requires 0 <= n < |numbers| => Packet(id, numbers[n]))
  }

  lemma StretchOfThree(sent: Sent, id: nat, numbers: seq<nat>, a: nat, b: nat) returns (i: nat, j: nat, k: nat)
    requires id in sent && Fits(sent[id]) && Top(sent[id]) == 2
    requires a <= b <= |numbers| && Stretch(sent, Numbered(id, numbers), id, a, b)
    ensures a <= i < b && a <= j < b && a <= k < b && numbers[i] == 0 && numbers[j] == 1 && numbers[k] == 2
    ensures forall p, q | a <= p < q < b :: numbers[p] != numbers[q]
  {
    i := Place(sent, id, numbers, a, b, 0);
    j := Place(sent, id, numbers, a, b, 1);
    k := Place(sent, id, numbers, a, b, 2);
    var part := Numbered(id, numbers)[a..b];
    forall p, q | a <= p < q < b
      ensures numbers[p] != numbers[q]
    {
      assert part[p - a] != part[q - a];
    }
  }

  lemma Place(sent: Sent, id: nat, numbers: seq<nat>, a: nat, b: nat, i: nat) returns (k: nat)
    requires id in sent && Fits(sent[id]) && i <= Top(sent[id])
    requires a <= b <= |numbers| && Stretch(sent, Numbered(id, numbers), id, a, b)
    ensures a <= k < b && numbers[k] == i
  {
    var part := Numbered(id, numbers)[a..b];
    assert Packet(id, i) in part;
    k :| 0 <= k < |part| && part[k] == Packet(id, i);
    k := a + k;
  }

  /** Two ways for three packets to arrive, some more than once, that lose the message. */
  lemma LostToRepeats(sent: Sent, id: nat)
    requires SentOk(sent) && id in sent && Fits(sent[id]) && Top(sent[id]) == 2
    ensures !Deliverable(sent, Numbered(id, [0, 1, 1, 2]), id)
    ensures !Deliverable(sent, Numbered(id, [0, 1, 1, 2, 2, 0, 0, 1]), id)
  {
    var short, long := [0, 1, 1, 2], [0, 1, 1, 2, 2, 0, 0, 1];
    assert short[1] == short[2] && long[1] == long[2] && long[3] == long[4] && long[5] == long[6];
    DeliverableIffStretch(sent, Numbered(id, short), id);
    DeliverableIffStretch(sent, Numbered(id, long), id);
    hide Deliverable, Stretch, Fits, Top, Numbered, SentOk;
    forall a: nat, b: nat | a <= b <= |short| && Stretch(sent, Numbered(id, short), id, a, b)
      ensures false
    {
      var i, j, k := StretchOfThree(sent, id, short, a, b);
    }
    forall a: nat, b: nat | a <= b <= |long| && Stretch(sent, Numbered(id, long), id, a, b)
      ensures false
    {
      var i, j, k := StretchOfThree(sent, id, long, a, b);
    }
  }

  /** And one that a later copy makes good. */
  lemma SavedByRepeat(sent: Sent, id: nat)
    requires SentOk(sent) && id in sent && Fits(sent[id]) && Top(sent[id]) == 2
    ensures Deliverable(sent, Numbered(id, [0, 1, 1, 2, 0]), id)
  {
    var arrived := Numbered(id, [0, 1, 1, 2, 0]);
    assert arrived[2..5] == [Packet(id, 1), Packet(id, 2), Packet(id, 0)];
    assert Stretch(sent, arrived, id, 2, 5);
    DeliverableIffStretch(sent, arrived, id);
  }
}
