/** The two tasks of an actor, which pass one token back and forth, against the one-task loop. */
module ActorTasks {

  datatype Local<S> = Msg(msg: S) | Term

  /** What the mailbox carries: outside messages, and what the primary tells the secondary. */
  datatype ActorMsg<S> = Outside(local: Local<S>) | PrimaryRequest | Die

  /** What the secondary tells the primary. */
  datatype PrimaryMsg<S> = Give(msg: S) | Stop

  function Convert<S>(l: Local<S>): PrimaryMsg<S> {
    match l case Msg(m) => Give(m) case Term => Stop
  }

  // ----- the specification: one task

  /** The messages before the first Term. */
  function BeforeTerm<S>(posted: seq<Local<S>>): seq<S> {
    if posted == [] || posted[0].Term? then [] else [posted[0].msg] + BeforeTerm(posted[1..])
  }

  lemma {:induction false} BeforeTermPrefix<S>(posted: seq<Local<S>>, n: nat)
    requires n <= |posted| && Term !in posted[..n]
    ensures n <= |BeforeTerm(posted)|
    ensures forall i | 0 <= i < n :: posted[i].Msg? && BeforeTerm(posted)[i] == posted[i].msg
    ensures n == |posted| || posted[n].Term? ==> |BeforeTerm(posted)| == n
  {
    if n > 0 {
      assert posted[0] in posted[..n];
      assert posted[1..][..n - 1] == posted[1..n];
      assert forall x | x in posted[1..n] :: x in posted[..n];
      BeforeTermPrefix(posted[1..], n - 1);
      assert forall i | 0 < i < n :: posted[i] == posted[1..][i - 1];
    }
  }

  /** The one-task loop, run until it stops or waits for more. */
  method UnitSingle<S>(mailbox: seq<Local<S>>) returns (received: seq<S>, stopped: bool)
    ensures received == BeforeTerm(mailbox)
    ensures stopped <==> Term in mailbox
  {
    received, stopped := [], false;
    var n := 0;
    while n < |mailbox| && !stopped
      invariant n <= |mailbox|
      invariant |received| == n - (if stopped then 1 else 0)
      invariant Term !in mailbox[..|received|]
      invariant forall i | 0 <= i < |received| :: mailbox[i] == Msg(received[i])
      invariant stopped ==> mailbox[|received|] == Term
      decreases |mailbox| - n, !stopped
    {
      match mailbox[n] {
        case Msg(m) => received := received + [m];
        case Term => stopped := true;
      }
      n := n + 1;
    }
    BeforeTermPrefix(mailbox, |received|);
  }

  // ----- the secondary

  datatype Secondary<S> = Secondary(queue: seq<PrimaryMsg<S>>, primaryWaiting: bool)

  /** One message handled: the new fields, what is sent to the primary, and how it ended. */
  datatype Handled<S> = Handled(secondary: Secondary<S>, sent: seq<PrimaryMsg<S>>, ended: bool, panicked: bool)

  function Handle<S>(s: Secondary<S>, msg: ActorMsg<S>): Handled<S> {
    match msg
    case Die => Handled(s, [], true, false)
    case PrimaryRequest =>
      if s.primaryWaiting then Handled(s, [], false, true)
      else if s.queue == [] then Handled(s.(primaryWaiting := true), [], false, false)
      else Handled(s.(queue := s.queue[1..]), [s.queue[0]], false, false)
    case Outside(l) =>
      if s.primaryWaiting then Handled(s.(primaryWaiting := false), [Convert(l)], false, false)
      else Handled(s.(queue := s.queue + [Convert(l)]), [], false, false)
  }

  /** Something is queued only while the primary is not waiting. */
  predicate Orderly<S>(s: Secondary<S>) {
    s.primaryWaiting ==> s.queue == []
  }

  /** What a caller may rely on: nothing queued or posted is lost, doubled or reordered; a request is held or answered
      once, with one message; and nobody waits while something is queued. */
  ghost predicate Obeys<S>(before: Secondary<S>, msg: ActorMsg<S>, h: Handled<S>) {
    && h.sent + h.secondary.queue == before.queue + (if msg.Outside? then [Convert(msg.local)] else [])
    && |h.sent| + (if h.secondary.primaryWaiting then 1 else 0)
       == (if before.primaryWaiting || msg.PrimaryRequest? then 1 else 0)
    && Orderly(h.secondary)
    && (h.ended <==> msg.Die?)
    && (h.panicked <==> msg.PrimaryRequest? && before.primaryWaiting)
  }

  /** These laws leave one way to handle a message. */
  lemma LawsDetermineHandling<S>(before: Secondary<S>, msg: ActorMsg<S>, h: Handled<S>)
    requires Orderly(before)
    ensures Obeys(before, msg, h) <==> h == Handle(before, msg)
  {
    var posted := before.queue + (if msg.Outside? then [Convert(msg.local)] else []);
    if h == Handle(before, msg) {
      assert h.sent + h.secondary.queue == posted;
    }
    if Obeys(before, msg, h) {
      if |h.sent| == 0 {
        assert h.sent + h.secondary.queue == h.secondary.queue;
      } else {
        assert (h.sent + h.secondary.queue)[0] == h.sent[0] && h.secondary.queue == posted[1..];
        assert h.sent == [h.sent[0]];
      }
      assert h.secondary.queue == Handle(before, msg).secondary.queue && h.sent == Handle(before, msg).sent;
    }
  }

  class UnitSecondary<S> {
    var queue: seq<PrimaryMsg<S>>
    var primaryWaiting: bool

    function View(): Secondary<S>
      reads this
    {
      Secondary(queue, primaryWaiting)
    }

    constructor ()
      ensures View() == Secondary([], false) && Orderly(View())
    {
      queue := [];
      primaryWaiting := false;
    }

    /** One turn of the secondary's loop; `sent` is what goes into the primary's channel. */
    method Recv(msg: ActorMsg<S>) returns (sent: seq<PrimaryMsg<S>>, ended: bool, panicked: bool)
      requires Orderly(View())
      modifies this
      ensures Obeys(old(View()), msg, Handled(View(), sent, ended, panicked))
    {
      sent, ended, panicked := [], false, false;
      var local;
      match msg {
        case Outside(x) => local := x;
        case Die =>
          ended := true;
          return;
        case PrimaryRequest =>
          if primaryWaiting {
            panicked := true;
          } else if queue == [] {
            primaryWaiting := true;
          } else {
            sent := [queue[0]];
            queue := queue[1..];
          }
          return;
      }
      var pri := match local case Msg(m) => Give(m) case Term => Stop;
      if primaryWaiting {
        sent := [pri];
        primaryWaiting := false;
      } else {
        queue := queue + [pri];
      }
    }
  }

  // ----- both tasks and their channels

  /** Where the primary is: about to ask, waiting for an answer, stopping, or gone. */
  datatype Pc = Asking | Waiting | Stopping | Gone

  datatype System<S> = System(
    posted: seq<Local<S>>,          // everything ever posted, in mailbox order
    mailbox: seq<ActorMsg<S>>,
    secondary: Secondary<S>,
    running: bool,                  // the secondary still receives
    channel: seq<PrimaryMsg<S>>,    // to the primary
    pc: Pc,
    received: seq<S>,               // given to the actor
    panicked: bool)

  function Started<S>(): System<S> {
    System([], [], Secondary([], false), true, [], Asking, [], false)
  }

  datatype Step<S> = Post(local: Local<S>) | SecondaryStep | PrimaryStep

  /** A task can move unless it waits on an empty channel. The primary also moves, by panicking, when the secondary
      has dropped its end of an empty channel. */
  predicate Enabled<S>(s: System<S>, step: Step<S>) {
    && !s.panicked
    && match step
       case Post(_) => true
       case SecondaryStep => s.running && s.mailbox != []
       case PrimaryStep => s.pc != Gone && (s.pc == Waiting && s.channel == [] ==> !s.running)
  }

  function Next<S>(s: System<S>, step: Step<S>): System<S>
    requires Enabled(s, step)
  {
    match step
    case Post(l) => s.(posted := s.posted + [l], mailbox := s.mailbox + [Outside(l)])
    case SecondaryStep =>
      var h := Handle(s.secondary, s.mailbox[0]);
      s.(mailbox := s.mailbox[1..], secondary := h.secondary, running := !h.ended, channel := s.channel + h.sent,
         panicked := h.panicked || (h.sent != [] && s.pc == Gone))
    case PrimaryStep =>
      match s.pc
      case Asking => s.(mailbox := s.mailbox + [PrimaryRequest], pc := Waiting, panicked := !s.running)
      case Waiting =>
        if s.channel == [] then s.(panicked := true) else
          (match s.channel[0]
           case Give(m) => s.(channel := s.channel[1..], received := s.received + [m], pc := Asking)
           case Stop => s.(channel := s.channel[1..], pc := Stopping))
      case Stopping => s.(mailbox := s.mailbox + [Die], pc := Gone, panicked := !s.running)
  }

  // ----- the invariant

  /** The outside messages still in the mailbox, as the primary will see them. */
  function Pending<S>(mailbox: seq<ActorMsg<S>>): seq<PrimaryMsg<S>> {
    if mailbox == [] then [] else
      (if mailbox[0].Outside? then [Convert(mailbox[0].local)] else []) + Pending(mailbox[1..])
  }

  lemma {:induction false} PendingPush<S>(mailbox: seq<ActorMsg<S>>, x: ActorMsg<S>)
    ensures Pending(mailbox + [x]) == Pending(mailbox) + if x.Outside? then [Convert(x.local)] else []
  {
    if mailbox != [] {
      PendingPush(mailbox[1..], x);
      assert (mailbox + [x])[1..] == mailbox[1..] + [x];
    }
  }

  function Converted<S>(posted: seq<Local<S>>): seq<PrimaryMsg<S>> {
    seq(|posted|, i requires 0 <= i < |posted| => Convert(posted[i]))
  }

  function Consumed<S>(s: System<S>): seq<PrimaryMsg<S>> {
    seq(|s.received|, i requires 0 <= i < |s.received| => Give(s.received[i]))
    + if s.pc == Stopping || s.pc == Gone then [Stop] else []
  }

  function Count<S(==)>(mailbox: seq<ActorMsg<S>>, x: ActorMsg<S>): nat {
    multiset(mailbox)[x]
  }

  /** The request is in the mailbox, noted by the secondary, answered, or not yet made: one token. */
  predicate OneToken<S(==)>(s: System<S>) {
    && Count(s.mailbox, PrimaryRequest) + (if s.secondary.primaryWaiting then 1 else 0) + |s.channel|
       == (if s.pc == Waiting then 1 else 0)
    && Orderly(s.secondary)
  }

  /** The secondary lives until the primary has gone and said so. */
  predicate DieComesLast<S(==)>(s: System<S>) {
    Count(s.mailbox, Die) == if s.pc == Gone && s.running then 1 else 0
  }

  function InFlight<S>(s: System<S>): seq<PrimaryMsg<S>> {
    s.channel + (s.secondary.queue + Pending(s.mailbox))
  }

  /** Nothing is lost, invented or reordered on the way. */
  predicate InOrder<S(==)>(s: System<S>) {
    Converted(s.posted) == Consumed(s) + InFlight(s)
  }

  predicate Inv<S(==)>(s: System<S>) {
    !s.panicked && (!s.running ==> s.pc == Gone) && OneToken(s) && DieComesLast(s) && InOrder(s)
  }

  lemma PostKeepsInv<S>(s: System<S>, l: Local<S>)
    requires Inv(s)
    ensures Inv(Next(s, Post(l)))
  {
    var t := Next(s, Post(l));
    PendingPush(s.mailbox, Outside(l));
    assert Converted(t.posted) == Converted(s.posted) + [Convert(l)];
  }

  lemma SecondaryKeepsInFlight<S>(s: System<S>)
    requires Orderly(s.secondary)
    requires Enabled(s, SecondaryStep)
    ensures InFlight(Next(s, SecondaryStep)) == InFlight(s)
  {
    var t := Next(s, SecondaryStep);
    var c, q, rest := s.channel, s.secondary.queue, Pending(s.mailbox[1..]);
    match s.mailbox[0] {
      case Outside(l) =>
        var x := Convert(l);
        if s.secondary.primaryWaiting {
          assert q + ([x] + rest) == [x] + (q + rest);
          assert (c + [x]) + (q + rest) == c + ([x] + (q + rest));
        } else {
          assert q + ([x] + rest) == (q + [x]) + rest;
        }
      case PrimaryRequest =>
        if q != [] {
          assert q + rest == [q[0]] + (q[1..] + rest);
          assert (c + [q[0]]) + (q[1..] + rest) == c + ([q[0]] + (q[1..] + rest));
        }
      case Die =>
    }
  }

  lemma SecondaryKeepsInv<S>(s: System<S>)
    requires Inv(s) && Enabled(s, SecondaryStep)
    ensures Inv(Next(s, SecondaryStep))
  {
    SecondaryKeepsInFlight(s);
    hide InFlight;
    assert s.mailbox == [s.mailbox[0]] + s.mailbox[1..];
    assert Count(s.mailbox, s.mailbox[0]) > 0;
  }

  lemma PrimaryKeepsInv<S>(s: System<S>)
    requires Inv(s) && Enabled(s, PrimaryStep)
    ensures Inv(Next(s, PrimaryStep))
  {
    var t := Next(s, PrimaryStep);
    PendingPush(s.mailbox, PrimaryRequest);
    PendingPush(s.mailbox, Die);
    if s.pc == Waiting {
      assert s.channel == [s.channel[0]] + s.channel[1..];
      assert Consumed(t) == Consumed(s) + [s.channel[0]];
    }
  }

  lemma StepKeepsInv<S>(s: System<S>, step: Step<S>)
    requires Inv(s) && Enabled(s, step)
    ensures Inv(Next(s, step))
  {
    match step {
      case Post(l) => PostKeepsInv(s, l);
      case SecondaryStep => SecondaryKeepsInv(s);
      case PrimaryStep => PrimaryKeepsInv(s);
    }
  }

  predicate Execution<S(==)>(states: seq<System<S>>, steps: seq<Step<S>>) {
    && |states| == |steps| + 1
    && states[0] == Started()
    && forall n | 0 <= n < |steps| :: Enabled(states[n], steps[n]) && states[n + 1] == Next(states[n], steps[n])
  }

  lemma {:induction false} ExecutionKeepsInv<S>(states: seq<System<S>>, steps: seq<Step<S>>, n: nat)
    requires Execution(states, steps) && n <= |steps|
    ensures Inv(states[n])
  {
    if n == 0 {
      assert Inv(Started<S>());
    } else {
      ExecutionKeepsInv(states, steps, n - 1);
      StepKeepsInv(states[n - 1], steps[n - 1]);
    }
  }

  // ----- refinement of the one-task loop

  /** What an observer sees of either version. */
  datatype Observed<S> = Observed(posted: seq<Local<S>>, received: seq<S>, stopped: bool)

  function Observe<S>(s: System<S>): Observed<S> {
    Observed(s.posted, s.received, s.pc == Stopping || s.pc == Gone)
  }

  /** The one-task loop takes the next message of its mailbox. */
  predicate SingleTakes<S(==)>(o: Observed<S>, p: Observed<S>) {
    var n := |o.received|;
    && !o.stopped && n < |o.posted|
    && p == match o.posted[n]
            case Msg(m) => o.(received := o.received + [m])
            case Term => o.(stopped := true)
  }

  lemma ReceivedIsPosted<S>(s: System<S>)
    requires Inv(s)
    ensures |Consumed(s)| <= |s.posted|
    ensures forall i | 0 <= i < |Consumed(s)| :: Convert(s.posted[i]) == Consumed(s)[i]
  {
    var c := Converted(s.posted);
    assert forall i | 0 <= i < |Consumed(s)| :: c[i] == Consumed(s)[i];
  }

  /** Every step of the two tasks is a step of the one-task loop on the same mailbox, or invisible. */
  lemma RefinesSingle<S>(s: System<S>, step: Step<S>)
    requires Inv(s) && Enabled(s, step)
    ensures var o, p := Observe(s), Observe(Next(s, step));
            || p == o
            || (step.Post? && p == o.(posted := o.posted + [step.local]))
            || SingleTakes(o, p)
  {
    var t := Next(s, step);
    StepKeepsInv(s, step);
    if step.PrimaryStep? && s.pc == Waiting {
      ReceivedIsPosted(t);
      var n := |s.received|;
      assert Convert(t.posted[n]) == Consumed(t)[n] == s.channel[0];
    }
  }

  /** In every reachable state the actor has received a prefix of the messages before the first Term; once the
      primary stops, so in particular when Die reaches the secondary, it has received all of them. */
  lemma ReceivedBeforeTerm<S>(s: System<S>)
    requires Inv(s)
    ensures s.received <= BeforeTerm(s.posted)
    ensures s.pc == Stopping || s.pc == Gone || !s.running ==> s.received == BeforeTerm(s.posted) && Term in s.posted
  {
    ReceivedIsPosted(s);
    var n := |s.received|;
    assert forall i | 0 <= i < n :: Convert(s.posted[i]) == Give(s.received[i]);
    assert Term !in s.posted[..n];
    BeforeTermPrefix(s.posted, n);
    if s.pc == Stopping || s.pc == Gone {
      assert Convert(s.posted[n]) == Consumed(s)[n];
      assert s.posted[n] == Term;
    }
  }

  /** No interleaving of posts and task steps reaches a panic, and the actor is given the messages before the first
      Term, in order: a prefix of them at any time, all of them once Die has reached the secondary. */
  lemma EveryExecutionDelivers<S>(states: seq<System<S>>, steps: seq<Step<S>>, n: nat)
    requires Execution(states, steps) && n <= |steps|
    ensures !states[n].panicked
    ensures states[n].received <= BeforeTerm(states[n].posted)
    ensures !states[n].running ==> states[n].received == BeforeTerm(states[n].posted)
  {
    ExecutionKeepsInv(states, steps, n);
    ReceivedBeforeTerm(states[n]);
  }

  /** When neither task can move, everything before the first Term has been received, and after a Term both
      tasks have ended: the hand-over never gets stuck. */
  lemma NeverStuck<S>(s: System<S>)
    requires Inv(s)
    requires !Enabled(s, SecondaryStep) && !Enabled(s, PrimaryStep)
    ensures s.received == BeforeTerm(s.posted)
    ensures Term in s.posted <==> s.pc == Gone && !s.running
  {
    ReceivedBeforeTerm(s);
    if s.running {
      assert s.mailbox == [];
      assert s.pc == Waiting && s.secondary.primaryWaiting;
      assert Consumed(s) == Converted(s.posted);
      var n := |s.received|;
      assert |s.posted| == n;
      forall i | 0 <= i < n
        ensures s.posted[i].Msg?
      {
        assert Converted(s.posted)[i] == Consumed(s)[i];
      }
      BeforeTermPrefix(s.posted, n);
    }
  }

  /** How much work is left in the tasks: a message gets cheaper at each hop, and so does the token. */
  function Work<S(==)>(s: System<S>): nat {
    MailWork(s.mailbox) + 3 * |s.secondary.queue| + 3 * |s.channel|
    + (if s.pc == Asking || s.pc == Stopping then 2 else 0)
  }

  function MailWork<S>(mailbox: seq<ActorMsg<S>>): nat {
    if mailbox == [] then 0 else (if mailbox[0].Outside? then 4 else 1) + MailWork(mailbox[1..])
  }

  lemma {:induction false} MailWorkPush<S>(mailbox: seq<ActorMsg<S>>, x: ActorMsg<S>)
    ensures MailWork(mailbox + [x]) == MailWork(mailbox) + if x.Outside? then 4 else 1
  {
    if mailbox != [] {
      MailWorkPush(mailbox[1..], x);
      assert (mailbox + [x])[1..] == mailbox[1..] + [x];
    }
  }

  /** Each step of a task leaves less work, so without further posts the tasks come to rest. */
  lemma TasksComeToRest<S>(s: System<S>, step: Step<S>)
    requires Inv(s) && Enabled(s, step) && !step.Post?
    ensures Work(Next(s, step)) < Work(s)
  {
    hide InOrder;
    MailWorkPush(s.mailbox, PrimaryRequest);
    MailWorkPush(s.mailbox, Die);
  }
}
