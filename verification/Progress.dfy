/** What the threads of src/main.c get done: a command that is written is queued, a queued one is
    dispatched while its connection lasts, and its answers are delivered. */
module Progress {
  import opened Bytes
  import opened MainLoop

  /** What main has taken from the queue and not yet finished with. */
  function InHand(m: Main): Option<Command> {
    match m
    case Reset(got) => got
    case LiveGeneration(c) => Some(c)
    case LiveConnection(c) => Some(c)
    case Dispatch(c) => Some(c)
    case Send(c, _) => Some(c)
    case _ => None
  }

  /** The connection that wrote the command is up, and no other has come or gone since. */
  predicate Live(a: Air, c: Command) {
    c.generation == a.generation && a.link == Up(c.conn)
  }

  /** No step loses a command: a queued one leaves the queue only into main's hands, and main lets go
      of one only when it has served it or its connection is gone. */
  lemma NeverDropped(s: State, l: Label)
    requires Step(s, l).Some?
    ensures var t := Step(s, l).value;
            && (s.post.queue.Some? ==> t.post.queue == s.post.queue || InHand(t.main) == s.post.queue)
            && (InHand(s.main).Some? && InHand(t.main) != InHand(s.main) ==>
                  !Live(s.air, InHand(s.main).value) || (s.main.Dispatch? && l == OfMain(Finish)))
  {
  }

  /** How far main is from serving c: in its hands, or queued while main is on its way to the queue. */
  function Distance(s: State, c: Command): Option<nat> {
    match s.main
    case Check => if s.post.queue == Some(c) then Some(6) else None
    case Wait => if s.post.queue == Some(c) then Some(5) else None
    case Get => if s.post.queue == Some(c) then Some(4) else None
    case Reset(got) => if got == Some(c) then Some(3) else None
    case LiveGeneration(d) => if d == c then Some(2) else None
    case LiveConnection(d) => if d == c then Some(1) else None
    case Dispatch(d) => if d == c then Some(0) else None
    case Send(_, _) => None
  }

  /** Every step of main brings it nearer to a live command, and no other step takes it away. */
  lemma Nearer(s: State, l: Label, c: Command)
    requires Step(s, l).Some? && Live(s.air, c)
    requires Distance(s, c).Some? && Distance(s, c).value > 0
    ensures var d := Distance(Step(s, l).value, c);
            d.Some? && if l.OfMain? then d.value < Distance(s, c).value else d == Distance(s, c)
  {
  }

  /** The steps main itself has taken. */
  function Turns(labels: seq<Label>): nat {
    if labels == [] then 0
    else Turns(labels[..|labels| - 1]) + if labels[|labels| - 1].OfMain? then 1 else 0
  }

  lemma RunSnoc(labels: seq<Label>, l: Label)
    ensures Run(labels + [l]) == if Run(labels).None? then None else Step(Run(labels).value, l)
  {
    hide Step;
    assert (labels + [l])[..|labels|] == labels;
  }

  lemma {:induction false} RunPrefix(labels: seq<Label>, more: seq<Label>)
    requires Run(labels + more).Some?
    ensures Run(labels).Some?
  {
    hide Run, Step;
    if more == [] {
      assert labels + more == labels;
    } else {
      var rest := more[..|more| - 1];
      assert labels + more == labels + rest + [more[|more| - 1]];
      RunSnoc(labels + rest, more[|more| - 1]);
      RunPrefix(labels, rest);
    }
  }

  /** The state after some more steps. */
  function Later(labels: seq<Label>, more: seq<Label>, i: nat): (s: State)
    requires i <= |more| && Run(labels + more).Some?
    ensures Run(labels + more[..i]) == Some(s)
  {
    assert labels + more == labels + more[..i] + more[i..];
    RunPrefix(labels + more[..i], more[i..]);
    Run(labels + more[..i]).value
  }

  /** A queued command is dispatched, however the other threads interleave: once main is on its way to
      the queue, and as long as the connection lasts, six steps of its own bring it there. */
  lemma ServedSoon(labels: seq<Label>, more: seq<Label>, c: Command)
    requires Run(labels + more).Some? && Turns(more) >= 6
    requires Run(labels).Some? && Run(labels).value.post.queue == Some(c)
    requires var m := Run(labels).value.main; m.Check? || m.Wait? || m.Get?
    requires forall i :: 0 <= i <= |more| ==> Live(Later(labels, more, i).air, c)
    ensures exists i :: 0 <= i <= |more| && Later(labels, more, i).main == Dispatch(c)
  {
    hide Run, Live, Step;
    if forall i :: 0 <= i <= |more| ==> Later(labels, more, i).main != Dispatch(c) {
      assert labels + [] == labels && more[..|more|] == more;
      StillNear(labels, more, c, |more|);
    }
  }

  lemma {:induction false} StillNear(labels: seq<Label>, more: seq<Label>, c: Command, n: nat)
    requires n <= |more| && Run(labels + more).Some? && Run(labels).Some?
    requires var d := Distance(Run(labels).value, c); d.Some? && d.value <= 6
    requires forall i :: 0 <= i <= |more| ==>
      Live(Later(labels, more, i).air, c) && Later(labels, more, i).main != Dispatch(c)
    ensures var d := Distance(Later(labels, more, n), c); d.Some? && 0 < d.value && d.value + Turns(more[..n]) <= 6
  {
    hide Run, Live, Step, Distance;
    if n == 0 {
      assert labels + more[..0] == labels;
    } else {
      StillNear(labels, more, c, n - 1);
      var s, l := Later(labels, more, n - 1), more[n - 1];
      assert more[..n][..n - 1] == more[..n - 1];
      assert labels + more[..n] == labels + more[..n - 1] + [l];
      RunSnoc(labels + more[..n - 1], l);
      assert Step(s, l) == Some(Later(labels, more, n));
      Nearer(s, l, c);
    }
    AtZero(Later(labels, more, n), c);
  }

  lemma AtZero(s: State, c: Command)
    ensures Distance(s, c) == Some(0) <==> s.main == Dispatch(c)
  {
  }

  /** And main is not asleep meanwhile: once the event of a queued command is given, a step other than
      a time-out takes it nearer. */
  lemma AwakeForIt(labels: seq<Label>, c: Command)
    requires Run(labels).Some? && !Run(labels).value.post.writer.Giving?
    requires Distance(Run(labels).value, c).Some? && Distance(Run(labels).value, c).value > 0
    ensures exists l: MainStep :: l != Timeout && StepMain(Run(labels).value, l).Some?
  {
    hide Run, Touched, Tickets, Posted, Counted;
    Invariant(labels);
    var s := Run(labels).value;
    var l := match s.main
      case Check => Look
      case Wait => Take
      case Get => Dequeue
      case Reset(_) => Refresh(false)
      case LiveGeneration(_) => CheckGeneration
      case _ => CheckConnection;
    assert l != Timeout && StepMain(s, l).Some?;
  }

  /** A run goes on through these states. */
  lemma {:induction false} RunThrough(labels: seq<Label>, more: seq<Label>, states: seq<State>)
    requires |states| == |more| + 1 && Run(labels) == Some(states[0])
    requires forall i :: 0 <= i < |more| ==> Step(states[i], more[i]) == Some(states[i + 1])
    ensures Run(labels + more) == Some(states[|more|])
  {
    hide Run, Step;
    if more == [] {
      assert labels + more == labels;
    } else {
      var n := |more| - 1;
      RunThrough(labels, more[..n], states[..n + 1]);
      assert Step(states[n], more[n]) == Some(states[n + 1]);
      assert labels + more == labels + more[..n] + [more[n]];
      RunSnoc(labels + more[..n], more[n]);
    }
  }

  /** From the queue straight to dispatch. */
  lemma Served(labels: seq<Label>, c: Command, stale: bool)
    requires Run(labels).Some? && Run(labels).value.main.Get? && Run(labels).value.post.queue == Some(c)
    requires Live(Run(labels).value.air, c)
    ensures var s := Run(labels + [OfMain(Dequeue), OfMain(Refresh(stale)), OfMain(CheckGeneration),
                                   OfMain(CheckConnection)]);
            s.Some? && s.value.main == Dispatch(c) && s.value.post.queue == None
  {
    hide Run;
    var s := Run(labels).value;
    var s1 := s.(main := Reset(Some(c)), post := s.post.(queue := None));
    var s2 := s1.(main := LiveGeneration(c), held := Renew(s.held, s.air, stale));
    var s3 := s2.(main := LiveConnection(c));
    RunThrough(labels, [OfMain(Dequeue), OfMain(Refresh(stale)), OfMain(CheckGeneration), OfMain(CheckConnection)],
               [s, s1, s2, s3, StepMain(s3, CheckConnection).value]);
  }

  /** A write on a connection that is up goes into an empty queue, dated and with an event. */
  lemma Written(labels: seq<Label>)
    requires Run(labels).Some?
    requires var s := Run(labels).value;
             s.post == Post(Away, None) && s.air.callback.Quiet? && s.air.link.Up?
    ensures var s := Run(labels).value;
            Run(labels + [OfPost(Start), OfPost(Read), OfPost(Put), OfPost(Give)]) ==
            Some(s.(post := Post(Away, Some(Command(s.air.link.conn, s.air.generation))), events := true))
  {
    hide Run;
    var s := Run(labels).value;
    var c := Command(s.air.link.conn, s.air.generation);
    RunThrough(labels, [OfPost(Start), OfPost(Read), OfPost(Put), OfPost(Give)],
               [s, s.(post := Post(Reading(c.conn), None)), s.(post := Post(Putting(c), None)),
                s.(post := Post(Giving, Some(c))), s.(post := Post(Away, Some(c)), events := true)]);
  }

  /** A reset is due to a new generation or a silence: within a generation main keeps the session, and
      the transfer unless it has gone stale; and a new one finds neither. */
  lemma ResetsWhenDue(s: State, stale: bool)
    requires s.main.Reset?
    ensures StepMain(s, Refresh(stale)).Some?
    ensures var before, after := s.held, StepMain(s, Refresh(stale)).value.held;
            && after.current == Some(s.air.generation)
            && if before.current == Some(s.air.generation) then
                 after.sessionBy == before.sessionBy && after.transferBy == if stale then {} else before.transferBy
               else
                 after.sessionBy == {} && after.transferBy == {}
  {
  }

  /** The flag that says whether a connection is up says so whenever no callback is just setting it. */
  lemma FlagTells(labels: seq<Label>)
    requires Run(labels).Some? && !Run(labels).value.air.callback.Flagging?
    ensures Run(labels).value.air.linkUp == Run(labels).value.air.link.Up?
  {
    hide Run, Wakes, Touched, Posted, Tickets;
    Invariant(labels);
  }

  // ----- notifications

  /** send_wire turns a notification away as busy exactly while one of the same connection is on its way. */
  lemma BusyExactly(labels: seq<Label>, o: Outcome)
    requires Run(labels).Some?
    requires var m := Run(labels).value.main; m.Send? && m.at.Claim?
    ensures var s := Run(labels).value;
            StepSend(s.wire, s.air, s.main.cmd, Claim, o).value.1.None?
            <==> exists p :: p in s.wire.pending && p.generation == s.main.cmd.generation
  {
    hide Run, Wakes, Touched, Posted, Counted;
    Invariant(labels);
    var s := Run(labels).value;
    var w, g := s.wire, s.main.cmd.generation;
    assert Underway(w, g, Claim);
    if w.ticket % 2 == 0 && w.owner == g {
      assert Token(w.ticket, w.owner) in w.pending;
    }
  }

  /** send_wire up to the notification, the host's report, and the last live check. */
  const TO_NOTIFY: seq<Label> :=
    [OfMain(StartSend), OfSend(Queued), OfSend(Queued), OfSend(Queued), OfSend(Queued), OfSend(Queued),
     OfSend(Queued), OfSend(Queued), OfSend(Queued)]
  const TO_DELIVERY: seq<Label> := [OfSend(Queued), OfSend(Queued), OfSend(Queued)]

  /** The ticket main publishes for its next notification. */
  function NextTicket(w: Wire): nat {
    w.ticket + 2 - w.ticket % 2
  }

  /** A notification is queued under a new ticket, when none of its connection is on its way. */
  lemma Notified(labels: seq<Label>, c: Command)
    requires Run(labels).Some? && Run(labels).value.main == Dispatch(c) && Live(Run(labels).value.air, c)
    requires forall p :: p in Run(labels).value.wire.pending ==> p.generation != c.generation
    ensures Run(labels + TO_NOTIFY).Some?
    ensures var s, w := Run(labels + TO_NOTIFY).value, Run(labels).value.wire;
            var t := NextTicket(w);
            && t !in w.fired && s.air == Run(labels).value.air && s.main == MainLoop.Send(c, Poll(t))
            && s.wire == w.(ticket := t, owner := c.generation, done := false,
                            pending := w.pending + {Token(t, c.generation)})
  {
    hide Run, Wakes, Touched, Posted, Counted;
    Invariant(labels);
    var s := Run(labels).value;
    var w, g, t := s.wire, c.generation, NextTicket(s.wire);
    var v := w.(owner := g);
    RunThrough(labels, TO_NOTIFY,
               [s, s.(main := MainLoop.Send(c, EnterGeneration)), s.(main := MainLoop.Send(c, EnterConnection)),
                s.(main := MainLoop.Send(c, Claim)), s.(main := MainLoop.Send(c, Publish(t)), wire := v),
                s.(main := MainLoop.Send(c, Clear(t)), wire := v.(ticket := t)),
                s.(main := MainLoop.Send(c, TryGeneration(t)), wire := v.(ticket := t, done := false)),
                s.(main := MainLoop.Send(c, TryConnection(t)), wire := v.(ticket := t, done := false)),
                s.(main := MainLoop.Send(c, Notify(t)), wire := v.(ticket := t, done := false)),
                s.(main := MainLoop.Send(c, Poll(t)),
                   wire := v.(ticket := t, done := false, pending := w.pending + {Token(t, g)}))]);
  }

  /** An answer is delivered: main, serving a command whose connection is up and has no notification
      on its way, can queue one, and when the host reports it, send_wire says so and main goes on. */
  lemma Delivered(labels: seq<Label>, c: Command)
    requires Run(labels).Some? && Run(labels).value.main == Dispatch(c) && Live(Run(labels).value.air, c)
    requires forall p :: p in Run(labels).value.wire.pending ==> p.generation != c.generation
    ensures var t := NextTicket(Run(labels).value.wire);
            var s := Run(labels + TO_NOTIFY + [OfHost(Report(Token(t, c.generation)))] + TO_DELIVERY);
            && s.Some? && s.value.main == Dispatch(c) && t in s.value.wire.delivered
            && t !in Run(labels).value.wire.delivered
            && forall p :: p in s.value.wire.pending ==> p.generation != c.generation
  {
    hide Run;
    Notified(labels, c);
    var on, t := labels + TO_NOTIFY, NextTicket(Run(labels).value.wire);
    var s := Run(on).value;
    var u := s.(wire := StepHost(s.wire, Report(Token(t, c.generation))).value);
    RunThrough(on, [OfHost(Report(Token(t, c.generation)))] + TO_DELIVERY,
               [s, u, u.(main := MainLoop.Send(c, DoneGeneration(t))), u.(main := MainLoop.Send(c, DoneConnection(t))),
                u.(main := Dispatch(c), wire := u.wire.(delivered := u.wire.delivered + {t}))]);
    assert on + ([OfHost(Report(Token(t, c.generation)))] + TO_DELIVERY)
        == on + [OfHost(Report(Token(t, c.generation)))] + TO_DELIVERY;
    NotBefore(labels, t);
  }

  /** A ticket not reported was not delivered. */
  lemma NotBefore(labels: seq<Label>, t: nat)
    requires Run(labels).Some? && t !in Run(labels).value.wire.fired
    ensures t !in Run(labels).value.wire.delivered
  {
    hide Run, Wakes, Touched, Posted, Counted;
    Ownership(labels);
  }
}
