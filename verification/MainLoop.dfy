/** The concurrency of src/main.c as a state machine: the main loop, the write callback, the
    connection callbacks and the notification callbacks interleave at every access to what they
    share. The generation and ticket counters are unbounded here. */
module MainLoop {
  import opened Bytes

  // ----- the connection callbacks

  /** Connections are numbered in the order they come up; there is at most one at a time. */
  datatype Link = Down | Up(conn: nat)

  /** connected and disconnected: set or clear link_up, count a generation, give the event. */
  datatype Callback = Quiet | Flagging | Counting | Announcing

  /** History: how many connections came up, and how many of those were counted. */
  datatype Air = Air(link: Link, callback: Callback, linkUp: bool, generation: nat, conns: nat, begun: nat)

  datatype AirStep = Connect | Disconnect | Flag | Count | Announce

  function StepAir(a: Air, events: bool, l: AirStep): Option<(Air, bool)> {
    match l
    case Connect =>
      if !a.callback.Quiet? || a.link.Up? then None
      else Some((a.(link := Up(a.conns), conns := a.conns + 1, callback := Flagging), events))
    case Disconnect =>
      if !a.callback.Quiet? || a.link.Down? then None else Some((a.(link := Down, callback := Flagging), events))
    case Flag =>
      if !a.callback.Flagging? then None else Some((a.(linkUp := a.link.Up?, callback := Counting), events))
    case Count =>
      if !a.callback.Counting? then None
      else
        var begun := if a.link.Up? then a.begun + 1 else a.begun;
        Some((a.(generation := a.generation + 1, begun := begun, callback := Announcing), events))
    case Announce =>
      if !a.callback.Announcing? then None else Some((a.(callback := Quiet), true))
  }

  // ----- the write callback

  /** A queued command: the connection that wrote it, and the generation read when it did. */
  datatype Command = Command(conn: nat, generation: nat)

  /** written: read the generation, put the command, give the event. */
  datatype Writer = Away | Reading(conn: nat) | Putting(cmd: Command) | Giving

  datatype Post = Post(writer: Writer, queue: Option<Command>)

  datatype PostStep = Start | Read | Put | Give

  /** A write starts on a connection that is up, and may be slow. */
  function StepPost(p: Post, events: bool, a: Air, l: PostStep): Option<(Post, bool)> {
    match l
    case Start =>
      if !p.writer.Away? || !a.callback.Quiet? || a.link.Down? then None
      else Some((p.(writer := Reading(a.link.conn)), events))
    case Read =>
      if !p.writer.Reading? then None else Some((p.(writer := Putting(Command(p.writer.conn, a.generation))), events))
    case Put =>
      if !p.writer.Putting? then None
      else if p.queue.Some? then Some((p.(writer := Away), events)) // full: the link will be dropped
      else Some((Post(Giving, Some(p.writer.cmd)), events))
    case Give =>
      if !p.writer.Giving? then None else Some((p.(writer := Away), true))
  }

  // ----- notifications

  /** A notification the host has queued and not yet reported as sent. */
  datatype Token = Token(ticket: nat, generation: nat)

  /** The shared ticket, main's note of whose it is, and the semaphore, with the callbacks about to
      give it. History: notifications on their way, tickets reported sent by the host, and tickets
      send_wire reported delivered. */
  datatype Wire = Wire(ticket: nat, owner: nat, done: bool, giving: nat,
                       pending: set<Token>, fired: set<nat>, delivered: set<nat>)

  datatype HostStep = Report(token: Token) | GiveDone

  /** notification_sent, for whichever queued notification, as late as it likes. */
  function StepHost(w: Wire, l: HostStep): Option<Wire> {
    match l
    case Report(token) =>
      if token !in w.pending then None
      else
        var v := w.(pending := w.pending - {token}, fired := w.fired + {token.ticket});
        Some(if w.ticket == token.ticket then v.(ticket := token.ticket + 1, giving := w.giving + 1) else v)
    case GiveDone =>
      if w.giving == 0 then None else Some(w.(done := true, giving := w.giving - 1))
  }

  /** send_wire, one shared access at a time; a live check is two, the generation and the
      connection. */
  datatype Sending =
    | EnterGeneration | EnterConnection | Claim | Publish(ticket: nat) | Clear(ticket: nat)
    | TryGeneration(ticket: nat) | TryConnection(ticket: nat) | Notify(ticket: nat) | Retract(ticket: nat)
    | Poll(ticket: nat) | PollGeneration(ticket: nat) | PollConnection(ticket: nat) | Pause(ticket: nat)
    | DoneGeneration(ticket: nat) | DoneConnection(ticket: nat)

  /** How a call that send_wire waits for turns out. */
  datatype Outcome = Queued | Again | Fails | Woken | Slept | Deadline

  /** The next point of send_wire, None when it returned. */
  function StepSend(w: Wire, a: Air, cmd: Command, at: Sending, o: Outcome): Option<(Wire, Option<Sending>)> {
    var same, up := cmd.generation == a.generation, a.link == Up(cmd.conn);
    match at
    case EnterGeneration => Some((w, if same then Some(EnterConnection) else None))
    case EnterConnection => Some((w, if up then Some(Claim) else None))
    case Claim =>
      // an even ticket of this connection is still out: busy
      if w.ticket % 2 == 0 && w.owner == cmd.generation then Some((w, None))
      else Some((w.(owner := cmd.generation), Some(Publish(w.ticket + 2 - w.ticket % 2))))
    case Publish(t) => Some((w.(ticket := t), Some(Clear(t))))
    case Clear(t) => Some((w.(done := false), Some(TryGeneration(t))))
    case TryGeneration(t) => Some((w, Some(if same then TryConnection(t) else Retract(t))))
    case TryConnection(t) => Some((w, Some(if up then Notify(t) else Retract(t))))
    case Notify(t) =>
      (match o
       case Queued => Some((w.(pending := w.pending + {Token(t, cmd.generation)}), Some(Poll(t))))
       case Again => Some((w, Some(TryGeneration(t))))
       case Fails => Some((w, Some(Retract(t))))
       case _ => None)
    case Retract(t) => Some((w.(ticket := t + 1), None)) // nothing was queued
    case Poll(t) => Some((w, Some(if w.ticket == t then PollGeneration(t) else DoneGeneration(t))))
    case PollGeneration(t) => Some((w, if same then Some(PollConnection(t)) else None))
    case PollConnection(t) => Some((w, if up then Some(Pause(t)) else None))
    case Pause(t) =>
      (match o
       case Deadline => Some((w, None))
       case Slept => Some((w, Some(Poll(t))))
       case Woken => if w.done then Some((w.(done := false), Some(Poll(t)))) else None
       case _ => None)
    case DoneGeneration(t) => Some((w, if same then Some(DoneConnection(t)) else None))
    case DoneConnection(t) => Some((if up then w.(delivered := w.delivered + {t}) else w, None))
  }

  // ----- the main loop

  datatype Main =
    | Check | Wait | Get | Reset(got: Option<Command>)
    | LiveGeneration(cmd: Command) | LiveConnection(cmd: Command)
    | Dispatch(cmd: Command) | Send(cmd: Command, at: Sending)

  /** What main holds. History: how many connections had been counted when the session was last
      reset, and whose commands have touched the transfer and the session since their last reset. */
  datatype Held = Held(current: Option<nat>, seen: nat, transferBy: set<nat>, sessionBy: set<nat>)

  datatype MainStep =
    | Look | Take | Timeout | Dequeue | Refresh(stale: bool)
    | CheckGeneration | CheckConnection | StartSend | Finish

  datatype State = State(air: Air, post: Post, events: bool, main: Main, held: Held, wire: Wire)

  const START := State(Air(Down, Quiet, false, 0, 0, 0), Post(Away, None), false, Check,
                       Held(None, 0, {}, {}), Wire(1, 0, false, 0, {}, {}, {}))

  /** The reset of what an earlier connection, or a silence of 30 seconds, left behind. */
  function Renew(h: Held, a: Air, stale: bool): Held {
    if h.current != Some(a.generation) then Held(Some(a.generation), a.begun, {}, {})
    else h.(transferBy := if stale then {} else h.transferBy)
  }

  function StepMain(s: State, l: MainStep): Option<State> {
    match l
    case Look =>
      if !s.main.Check? then None else Some(s.(main := if s.held.current == Some(s.air.generation) then Wait else Get))
    case Take =>
      if !s.main.Wait? || !s.events then None else Some(s.(events := false, main := Get))
    case Timeout =>
      if !s.main.Wait? then None else Some(s.(main := Get))
    case Dequeue =>
      if !s.main.Get? then None else Some(s.(main := Reset(s.post.queue), post := s.post.(queue := None)))
    case Refresh(stale) =>
      if !s.main.Reset? then None
      else
        Some(s.(main := if s.main.got.Some? then LiveGeneration(s.main.got.value) else Check,
                held := Renew(s.held, s.air, stale)))
    case CheckGeneration =>
      if !s.main.LiveGeneration? then None
      else Some(s.(main := if s.main.cmd.generation == s.air.generation then LiveConnection(s.main.cmd) else Check))
    case CheckConnection =>
      if !s.main.LiveConnection? then None
      else if s.air.link != Up(s.main.cmd.conn) then Some(s.(main := Check))
      else
        var k := s.main.cmd.conn;
        Some(s.(main := Dispatch(s.main.cmd),
                held := s.held.(transferBy := s.held.transferBy + {k}, sessionBy := s.held.sessionBy + {k})))
    case StartSend =>
      if !s.main.Dispatch? then None else Some(s.(main := Send(s.main.cmd, EnterGeneration)))
    case Finish =>
      if !s.main.Dispatch? then None else Some(s.(main := Check))
  }

  datatype Label =
    | OfAir(air: AirStep) | OfPost(post: PostStep) | OfHost(host: HostStep)
    | OfMain(main: MainStep) | OfSend(outcome: Outcome)

  /** One step of whoever the label names; None when that step is not possible. */
  function Step(s: State, l: Label): Option<State> {
    match l
    case OfAir(b) =>
      (match StepAir(s.air, s.events, b)
       case None => None
       case Some(r) => Some(s.(air := r.0, events := r.1)))
    case OfPost(b) =>
      (match StepPost(s.post, s.events, s.air, b)
       case None => None
       case Some(r) => Some(s.(post := r.0, events := r.1)))
    case OfHost(b) =>
      (match StepHost(s.wire, b)
       case None => None
       case Some(w) => Some(s.(wire := w)))
    case OfMain(b) => StepMain(s, b)
    case OfSend(o) =>
      if !s.main.Send? then None
      else
        match StepSend(s.wire, s.air, s.main.cmd, s.main.at, o)
        case None => None
        case Some(r) =>
          Some(s.(wire := r.0, main := if r.1.Some? then Send(s.main.cmd, r.1.value) else Dispatch(s.main.cmd)))
  }

  /** The state after an interleaving, or None when some step of it is not possible. */
  function Run(labels: seq<Label>): Option<State> {
    if labels == [] then Some(START)
    else
      var s := Run(labels[..|labels| - 1]);
      if s.None? then None else Step(s.value, labels[|labels| - 1])
  }

  // ----- what every step keeps

  predicate Uncounted(a: Air) {
    a.callback.Flagging? || a.callback.Counting?
  }

  /** Every connection counts one generation when it comes up and one when it goes down, and the flag
      follows it. */
  predicate Counted(a: Air) {
    && a.begun == (a.generation + 1) / 2 && (!a.callback.Flagging? ==> a.linkUp == a.link.Up?)
    && match a.link
       case Up(k) => a.conns == k + 1 && a.generation == if Uncounted(a) then 2 * k else 2 * k + 1
       case Down => if Uncounted(a) then a.generation + 1 == 2 * a.conns else a.generation == 2 * a.conns
  }

  predicate Seen(a: Air, h: Held) {
    h.current.Some? ==> h.current.value <= a.generation && h.seen == (h.current.value + 1) / 2
  }

  /** The generation of a command was read after its connection had been counted. */
  predicate Dated(a: Air, c: Command) {
    c.conn < a.conns && 2 * c.conn + 1 <= c.generation <= a.generation
  }

  predicate Posted(a: Air, p: Post) {
    && (p.writer.Reading? ==> p.writer.conn < a.conns && 2 * p.writer.conn + 1 <= a.generation)
    && (p.writer.Putting? ==> Dated(a, p.writer.cmd))
    && (p.queue.Some? ==> Dated(a, p.queue.value))
  }

  /** A command in main's hands; once dispatched, it is of the connection the last reset saw. */
  predicate Handled(a: Air, m: Main, h: Held) {
    match m
    case Reset(got) => got.Some? ==> Dated(a, got.value)
    case LiveGeneration(c) => Dated(a, c) && h.current.Some? && c.generation <= h.current.value
    case LiveConnection(c) => Dated(a, c) && h.current == Some(c.generation)
    case Dispatch(c) => Serves(h, c)
    case Send(c, _) => Serves(h, c)
    case Wait => h.current.Some?
    case _ => true
  }

  predicate Serves(h: Held, c: Command) {
    h.current == Some(c.generation) && c.generation == 2 * c.conn + 1
  }

  predicate Touched(h: Held) {
    && (forall k :: k in h.transferBy ==> h.current == Some(2 * k + 1))
    && (forall k :: k in h.sessionBy ==> h.current == Some(2 * k + 1))
  }

  /** What has been posted will wake main, or main is just about to look. */
  predicate Wakes(a: Air, p: Post, events: bool, m: Main, h: Held) {
    && (p.queue.Some? && !p.writer.Giving? ==> events || m.Get?)
    && (h.current.Some? && h.current.value != a.generation && !a.callback.Announcing? ==> events || m.Get? || m.Reset?)
  }

  /** A ticket send_wire has published and not yet handed to the host. */
  predicate Unqueued(at: Sending) {
    at.Clear? || at.TryGeneration? || at.TryConnection? || at.Notify? || at.Retract?
  }

  predicate Awaited(at: Sending) {
    at.Poll? || at.PollGeneration? || at.PollConnection? || at.Pause?
  }

  predicate Finished(at: Sending) {
    at.DoneGeneration? || at.DoneConnection?
  }

  /** Tickets on their way are even, not yet reported, and unique, also within a generation. */
  predicate Unique(w: Wire) {
    && (forall p :: p in w.pending ==>
        p.ticket % 2 == 0 && p.ticket <= w.ticket && p.generation <= w.owner && p.ticket !in w.fired)
    && (forall p, q :: p in w.pending && q in w.pending && (p.ticket == q.ticket || p.generation == q.generation) ==>
        p == q)
    && (forall t :: t in w.fired ==> t < w.ticket)
    && w.delivered <= w.fired
  }

  /** A notification of the ticket's owner is the one that holds the ticket. */
  predicate Owned(w: Wire) {
    forall p :: p in w.pending ==> (p.ticket == w.ticket <==> p.generation == w.owner)
  }

  /** An even ticket is that of a notification on its way. */
  predicate Out(w: Wire) {
    w.ticket % 2 == 0 ==> Token(w.ticket, w.owner) in w.pending
  }

  /** Where send_wire is, for the command of generation g. */
  predicate Underway(w: Wire, g: nat, at: Sending) {
    && w.owner <= g
    && if at.Publish? then
         && at.ticket % 2 == 0 && w.ticket < at.ticket && w.owner == g
         && forall p :: p in w.pending ==> p.generation < g
       else
         && Owned(w)
         && (if Unqueued(at) then
               w.ticket == at.ticket && w.ticket % 2 == 0 && w.owner == g && Token(at.ticket, g) !in w.pending
             else
               Out(w))
         && (Awaited(at) ==>
               && w.owner == g && at.ticket % 2 == 0
               && if w.ticket == at.ticket then Token(at.ticket, g) in w.pending
                  else w.ticket == at.ticket + 1 && at.ticket in w.fired)
         && (Finished(at) ==> at.ticket in w.fired)
  }

  predicate Tickets(w: Wire, m: Main, h: Held) {
    && Unique(w)
    && w.owner <= (match h.current case Some(g) => g case None => 0)
    && if m.Send? then Underway(w, m.cmd.generation, m.at) else Owned(w) && Out(w)
  }

  predicate Inv(s: State) {
    && Counted(s.air) && Seen(s.air, s.held) && Posted(s.air, s.post) && Handled(s.air, s.main, s.held)
    && Touched(s.held) && Wakes(s.air, s.post, s.events, s.main, s.held) && Tickets(s.wire, s.main, s.held)
  }

  lemma AirKeeps(s: State, b: AirStep)
    requires Inv(s) && StepAir(s.air, s.events, b).Some?
    ensures Inv(Step(s, OfAir(b)).value)
  {
    hide Touched, Tickets;
  }

  lemma PostKeeps(s: State, b: PostStep)
    requires Inv(s) && StepPost(s.post, s.events, s.air, b).Some?
    ensures Inv(Step(s, OfPost(b)).value)
  {
    hide Touched, Tickets, Seen, Handled;
  }

  lemma HostKeeps(s: State, b: HostStep)
    requires Inv(s) && StepHost(s.wire, b).Some?
    ensures Inv(Step(s, OfHost(b)).value)
  {
    hide Touched, Counted, Seen, Posted, Handled, Wakes;
    ReportKeeps(s.wire, b);
  }

  lemma ReportKeeps(w: Wire, b: HostStep)
    requires Unique(w) && StepHost(w, b).Some?
    ensures var v := StepHost(w, b).value;
            && Unique(v) && (Owned(w) ==> Owned(v)) && (Out(w) ==> Out(v))
            && (forall g, at: Sending :: Underway(w, g, at) ==> Underway(v, g, at))
  {
  }

  lemma MainKeeps(s: State, b: MainStep)
    requires Inv(s) && StepMain(s, b).Some?
    ensures Inv(StepMain(s, b).value)
  {
    hide Unique, Owned;
  }

  /** What a step of send_wire leaves. */
  predicate Follows(w: Wire, r: (Wire, Option<Sending>), g: nat) {
    && Unique(r.0) && r.0.owner <= (if w.owner > g then w.owner else g)
    && match r.1 case Some(at) => Underway(r.0, g, at) case None => Owned(r.0) && Out(r.0)
  }

  /** Nothing of this generation is on its way when main claims a ticket for it. */
  lemma ClaimKeeps(w: Wire, a: Air, cmd: Command, o: Outcome)
    requires Unique(w) && Underway(w, cmd.generation, Claim)
    ensures Follows(w, StepSend(w, a, cmd, Claim, o).value, cmd.generation)
  {
  }

  lemma PublishKeeps(w: Wire, a: Air, cmd: Command, t: nat, o: Outcome)
    requires Unique(w) && Underway(w, cmd.generation, Publish(t))
    ensures Follows(w, StepSend(w, a, cmd, Publish(t), o).value, cmd.generation)
  {
  }

  lemma NotifyKeeps(w: Wire, a: Air, cmd: Command, t: nat, o: Outcome)
    requires Unique(w) && Underway(w, cmd.generation, Notify(t)) && StepSend(w, a, cmd, Notify(t), o).Some?
    ensures Follows(w, StepSend(w, a, cmd, Notify(t), o).value, cmd.generation)
  {
  }

  lemma RetractKeeps(w: Wire, a: Air, cmd: Command, t: nat, o: Outcome)
    requires Unique(w) && Underway(w, cmd.generation, Retract(t))
    ensures Follows(w, StepSend(w, a, cmd, Retract(t), o).value, cmd.generation)
  {
  }

  lemma OtherKeeps(w: Wire, a: Air, cmd: Command, at: Sending, o: Outcome)
    requires Unique(w) && Underway(w, cmd.generation, at) && StepSend(w, a, cmd, at, o).Some?
    requires !at.Claim? && !at.Publish? && !at.Notify? && !at.Retract?
    ensures Follows(w, StepSend(w, a, cmd, at, o).value, cmd.generation)
  {
    hide Unique, Owned;
    DoneKeeps(w);
    if at.DoneConnection? {
      DeliveryKeeps(w, at.ticket);
    }
  }

  lemma DoneKeeps(w: Wire)
    ensures var v := w.(done := false); Unique(w) == Unique(v) && Owned(w) == Owned(v) && Out(w) == Out(v)
  {
  }

  lemma DeliveryKeeps(w: Wire, t: nat)
    requires Unique(w) && t in w.fired
    ensures var v := w.(delivered := w.delivered + {t}); Unique(v) && Owned(w) == Owned(v) && Out(w) == Out(v)
  {
  }

  lemma SendKeeps(s: State, o: Outcome)
    requires Inv(s) && s.main.Send? && StepSend(s.wire, s.air, s.main.cmd, s.main.at, o).Some?
    ensures Inv(Step(s, OfSend(o)).value)
  {
    hide Touched, Counted, Seen, Posted, StepSend, Unique, Owned, Underway;
    var w, a, cmd := s.wire, s.air, s.main.cmd;
    match s.main.at {
      case Claim => ClaimKeeps(w, a, cmd, o);
      case Publish(t) => PublishKeeps(w, a, cmd, t, o);
      case Notify(t) => NotifyKeeps(w, a, cmd, t, o);
      case Retract(t) => RetractKeeps(w, a, cmd, t, o);
      case _ => OtherKeeps(w, a, cmd, s.main.at, o);
    }
  }

  lemma {:induction false} Invariant(labels: seq<Label>)
    requires Run(labels).Some?
    ensures Inv(Run(labels).value)
  {
    hide Inv, StepAir, StepPost, StepHost, StepMain, StepSend;
    if labels == [] {
      StartInv();
    } else {
      var n := |labels| - 1;
      Invariant(labels[..n]);
      var s := Run(labels[..n]).value;
      match labels[n] {
        case OfAir(b) => AirKeeps(s, b);
        case OfPost(b) => PostKeeps(s, b);
        case OfHost(b) => HostKeeps(s, b);
        case OfMain(b) => MainKeeps(s, b);
        case OfSend(o) => SendKeeps(s, o);
      }
    }
  }

  lemma StartInv()
    ensures Inv(START)
  {
  }

  // ----- over every interleaving

  /** The command main is serving. */
  function Serving(m: Main): Option<Command> {
    match m
    case Dispatch(c) => Some(c)
    case Send(c, _) => Some(c)
    case _ => None
  }

  /** Connection isolation: a command is served only in the generation that main last reset for, the
      session was reset after the command's connection came up and before any later one did, and
      since then only commands of that same connection have touched transfer and session. */
  lemma Isolation(labels: seq<Label>)
    requires Run(labels).Some? && Serving(Run(labels).value.main).Some?
    ensures var h, c := Run(labels).value.held, Serving(Run(labels).value.main).value;
            && h.current == Some(c.generation)
            && h.seen == c.conn + 1
            && h.transferBy <= {c.conn} && h.sessionBy <= {c.conn}
  {
    hide Run, Wakes, Tickets, Posted, Counted;
    Invariant(labels);
  }

  /** When a command is dispatched its connection is still up and its generation still the latest. */
  lemma DispatchIsLive(labels: seq<Label>)
    requires Run(labels).Some? && StepMain(Run(labels).value, CheckConnection).Some?
    requires StepMain(Run(labels).value, CheckConnection).value.main.Dispatch?
    ensures var s := Run(labels).value;
            s.air.link == Up(s.main.cmd.conn) && s.main.cmd.generation == s.air.generation
                && s.held.current == Some(s.air.generation)
  {
    hide Run, Wakes, Tickets, Touched, Posted;
    Invariant(labels);
  }

  /** Notification ownership: at most one notification of a connection is on its way, each is
      reported at most once, and send_wire reports a delivery only when the host reported it. */
  lemma Ownership(labels: seq<Label>)
    requires Run(labels).Some?
    ensures var w := Run(labels).value.wire;
            && (forall p, q :: p in w.pending && q in w.pending && p.generation == q.generation ==> p == q)
            && (forall p :: p in w.pending ==> p.ticket !in w.fired)
            && w.delivered <= w.fired
  {
    hide Run, Wakes, Touched, Posted, Counted;
    Invariant(labels);
  }

  /** Whatever callback runs while send_wire waits for a ticket, and however late, the ticket is
      completed only by the report of the notification that this call queued under it; and a new
      ticket has never been used before. */
  lemma OnlyItsOwnReport(labels: seq<Label>, token: Token)
    requires Run(labels).Some? && Run(labels).value.main.Send?
    ensures var s := Run(labels).value;
            var at, w, g := s.main.at, s.wire, s.main.cmd.generation;
            && (Unqueued(at) && token in w.pending ==> StepHost(w, Report(token)).value.ticket == w.ticket == at.ticket)
            && (Awaited(at) && token in w.pending && StepHost(w, Report(token)).value.ticket != w.ticket ==>
                  token == Token(at.ticket, g))
            && (at.Publish? ==> at.ticket !in w.fired && forall p :: p in w.pending ==> p.ticket != at.ticket)
  {
    hide Run, Wakes, Touched, Posted, Counted;
    Invariant(labels);
  }

  /** No lost wakeup: when main sleeps with no event pending, a queued command is one whose event is
      just about to be given, and so is that of a generation main has not seen. */
  lemma NoLostWakeup(labels: seq<Label>)
    requires Run(labels).Some? && Run(labels).value.main.Wait? && !Run(labels).value.events
    ensures var s := Run(labels).value;
            && (s.post.queue.Some? ==> s.post.writer.Giving?)
            && (s.held.current != Some(s.air.generation) ==> s.air.callback.Announcing?)
  {
    hide Run, Touched, Tickets, Posted, Counted;
    Invariant(labels);
  }
}
