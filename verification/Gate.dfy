/** dispatch of src/main.c: which commands reach the transfer protocol, given the security packet of
    the configuration in force and the session. */
module Gate {
  import opened Bytes
  import BlockModes
  import opened Container
  import opened Security
  import Checksum
  import ConfigStore
  import Frames
  import PanelIo
  import Protocol

  const SECURITY: byte := 39

  /** Where the first packet of a type starts. */
  function Find(ps: seq<Packet>, kind: byte): (r: Option<nat>)
    ensures r.Some? ==> Packet(kind, r.value) in ps
    ensures r.None? ==> !HasKind(ps, kind)
  {
    if ps == [] then None
    else if ps[0].kind == kind then Some(ps[0].at)
    else Find(ps[1..], kind)
  }

  lemma {:induction false} FindOnly(ps: seq<Packet>, kind: byte, at: nat)
    requires forall i, j :: 0 <= i < j < |ps| ==> ps[i].kind != ps[j].kind
    requires Packet(kind, at) in ps
    ensures Find(ps, kind) == Some(at)
  {
    if ps[0].kind == kind {
    } else {
      assert Packet(kind, at) in ps[1..];
      FindOnly(ps[1..], kind, at);
    }
  }

  /** An accepted container has at most one packet of a type. */
  lemma FindUnique(data: bytes, kind: byte, at: nat)
    requires Validate(data) == Verdict.Valid && Packet(kind, at) in Packets(data, 3)
    ensures Find(Packets(data, 3), kind) == Some(at)
  {
    hide Checksum.Checked, Packets, Find, FieldVerdict, Walk;
    AcceptedPackets(data, 3, {});
    FindOnly(Packets(data, 3), kind, at);
  }

  /** The security packet of an accepted configuration. */
  ghost function PolicyOf(c: bytes): Policy
    requires Validate(c) == Verdict.Valid
  {
    AcceptedWhole(c);
    match Find(Packets(c, 3), SECURITY)
    case Some(at) =>
      assert InBounds(c, Packet(SECURITY, at));
      Some(c[at..at + 64])
    case None => None
  }

  /** The policy is the content of the packet of type 39, and there is none without one: 64 bytes, a
      switch that is 0 or 1, and a key that is not zero when it is on. */
  lemma PolicyBytes(c: bytes)
    requires Validate(c) == Verdict.Valid
    ensures PolicyOf(c).Some? <==> exists at: nat :: Packet(39, at) in Packets(c, 3)
    ensures forall at: nat :: Packet(39, at) in Packets(c, 3) ==> at + 64 <= |c| && PolicyOf(c) == Some(c[at..at + 64])
    ensures PolicyOf(c).Some? ==>
      var p := PolicyOf(c).value;
      p[0] == 0 || (p[0] == 1 && Be(p[1..17]) != 0)
  {
    hide Checksum.Checked, Packets, Find, FieldVerdict, Walk, Be;
    AcceptedWhole(c);
    forall at: nat | Packet(39, at) in Packets(c, 3)
      ensures at + 64 <= |c| && PolicyOf(c) == Some(c[at..at + 64])
      ensures var p := c[at..at + 64]; p[0] == 0 || (p[0] == 1 && Be(p[1..17]) != 0)
    {
      AcceptedPacket(c, 3, {}, Packet(39, at));
      FindUnique(c, 39, at);
      AcceptedFields(39, c[at..at + 64]);
    }
    NoneHasNone(c);
  }

  lemma NoneHasNone(c: bytes)
    requires Validate(c) == Verdict.Valid
    ensures PolicyOf(c).Some? ==> exists at: nat :: Packet(39, at) in Packets(c, 3)
  {
    hide Checksum.Checked, Packets, FieldVerdict, Walk;
    AcceptedWhole(c);
  }

  /** od_config_security on the configuration in force. */
  method ReadPolicy(config: ConfigStore.Store) returns (policy: Policy)
    requires config.Valid()
    ensures Validate(config.Effective()) == Verdict.Valid && policy == PolicyOf(config.Effective())
  {
    hide Validate, ConfigStore.Store.Valid, ConfigStore.Store.Effective, Packets, Find;
    var c := config.Get();
    ghost var visited;
    var at;
    at, visited := ConfigPacket(c, SECURITY);
    AcceptedWhole(c);
    match at {
      case Some(n) =>
        FindUnique(c, SECURITY, n);
        assert InBounds(c, Packet(SECURITY, n));
        return Some(c[n..n + 64]);
      case None =>
        return None;
    }
  }

  /** What becomes of a command: handed on with a plain size, dropped without a word, or refused. */
  datatype Admission = Admit(size: nat) | Ignore | Refuse(status: byte)

  const NO_SESSION: byte := 0xfe
  const BAD_FRAME: byte := 0xff

  predicate Version(frame: bytes)
    requires |frame| >= 2
  {
    frame[0] == 0 && frame[1] == 0x43
  }

  /** A command that may be handed on, and what it then says: in plain without a policy or as a
      version request, otherwise the content of a sealed frame of this session. */
  ghost predicate Entitled(policy: Policy, cipher: BlockModes.Cipher, key: BlockModes.Block, wire: bytes, plain: bytes)
    requires 2 <= |wire|
  {
    if !Enabled(policy) || Version(wire) then plain == wire
    else 31 <= |wire| <= 244 && Unwire(cipher, key, wire) == Some(plain)
  }

  /** A PIPE frame sealed for this session. */
  predicate Piped(s: SessionShot, wire: bytes)
    requires 2 <= |wire|
    ensures Piped(s, wire) ==> |wire| >= 18
  {
    wire[0] == 0 && wire[1] == 0x81 && Addressed(s, wire)
  }

  /** The receive window takes a counter in, and nothing else about the session changes. */
  ghost predicate Received(b: SessionShot, a: SessionShot, counter: nat) {
    && b.phase.Session? && a.phase.Session?
    && a == b.(accepted := b.accepted + {counter}, phase := b.phase.(window := a.phase.window))
  }

  /** The session check. With a policy in force nothing but a version request passes without a
      session, and each counter passes at most once. */
  method Check(sec: Sessions, policy: Policy, frame: array<byte>, size: nat) returns (a: Admission)
    requires sec.Valid() && 2 <= size <= frame.Length
    modifies sec`phase, sec`accepted, frame, sec.aes`failures
    ensures sec.Valid() && frame[..2] == old(frame[..2])
    ensures var wire, open := old(frame[..size]), !Enabled(policy) || Version(old(frame[..size]));
            var sealed := Addressed(sec.Now(), wire) && Unseen(old(sec.accepted), FrameCounter(wire))
                          && sec.aes.failures == old(sec.aes.failures) && Unwire(sec.aes.cipher, sec.key, wire).Some?;
            && (a.Admit? <==> open || sealed)
            && (a.Admit? ==> 2 <= a.size <= size && Entitled(policy, sec.aes.cipher, sec.key, wire, frame[..a.size]))
            && (a == Refuse(NO_SESSION) <==> !open && !sec.authenticated)
            && (a.Ignore? <==> !open && Piped(sec.Now(), wire) && !Unseen(old(sec.accepted), FrameCounter(wire)))
            && (a.Refuse? ==> a.status == if sec.authenticated then BAD_FRAME else NO_SESSION)
            && (if a.Admit? && !open then Received(old(sec.Now()), sec.Now(), FrameCounter(wire))
                else sec.Now() == old(sec.Now()))
  {
    hide Unwire, Limiter, SessionOk;
    assert frame[..size][..2] == frame[..2];
    if !Enabled(policy) || (frame[0] == 0 && frame[1] == 0x43) {
      return Admit(size);
    }
    if !sec.authenticated {
      return Refuse(NO_SESSION);
    }
    var r := sec.Decrypt(frame, size);
    match r {
      case Frame(n) =>
        return Admit(n);
      case Already =>
        return if frame[0] == 0 && frame[1] == 0x81 then Ignore else Refuse(BAD_FRAME);
      case _ =>
        return Refuse(BAD_FRAME);
    }
  }

  predicate Authentication(frame: bytes)
    requires |frame| >= 2
  {
    frame[0] == 0 && frame[1] == 0x50
  }

  /** What a command starts from: the session, the transfer and the configuration. */
  datatype Before = Before(session: SessionShot, transfer: Protocol.Snapshot, config: Protocol.ConfigShot)

  ghost function Look(sec: Sessions, p: Protocol.Protocol): Before
    requires p.config.Valid()
    reads sec, p, p.io, p.config, p.config.flash, p.config.flash.mem
  {
    Before(sec.Now(), p.Now(), p.Settings())
  }

  /** An expired session is wiped and ends with its transfer and its configuration upload; otherwise
      nothing happens. */
  ghost predicate Aged(b: Before, a: Before, policy: Policy, now: nat)
    requires b.session.authenticated ==> b.session.phase.Session?
  {
    var s, t := b.session, b.transfer;
    if !Outlived(policy, s.authenticated, s.phase, now) then a == b
    else
      && a.session == Emptied(s)
      && a.transfer == Protocol.Rested(t, Protocol.NamedBase(t), t.trace + Protocol.Aborts(t.active))
      && a.config == Protocol.Settled(b.config.effective, b.config.faults)
  }

  method Expire(sec: Sessions, p: Protocol.Protocol, policy: Policy, now: nat)
    requires sec.Valid() && p.Valid() && now < TWO_32
    modifies sec, p, p.io, p.io.epd, p.config
    ensures sec.Valid() && p.Valid() && sec.history == old(sec.history) && old(p.io.trace) <= p.io.trace
    ensures Aged(old(Look(sec, p)), Look(sec, p), policy, now)
  {
    hide Protocol.Protocol.Linked, Protocol.Protocol.Running, Protocol.Protocol.Idle, Protocol.Protocol.Inv;
    hide ConfigStore.Store.Valid, ConfigStore.Store.Effective, Limiter, SessionOk;
    var expired := sec.Expire(policy, now);
    if expired {
      p.Drop();
      p.NothingOpen();
    }
  }

  /** The protocol has carried out this command, whatever it says. */
  ghost predicate Executed(sha: bytes, b: Before, a: Before, command: bytes, ok: bool)
    requires |command| >= 2
  {
    if command[0] == 0 then
      && Protocol.Effect(sha, b.transfer, a.transfer, command[1], command[2..], ok)
      && Protocol.Stores(b.config, a.config, b.transfer.trace, a.transfer.trace, command[1], command[2..], ok)
    else
      Answered(b, a, [PanelIo.Sent(Frames.Reply(command[1], false), ok)])
  }

  /** Nothing happened but this. */
  ghost predicate Answered(b: Before, a: Before, answer: seq<PanelIo.Event>) {
    a.transfer == b.transfer.(trace := b.transfer.trace + answer) && a.config == b.config
  }

  /** A command other than authentication. Without a policy, or as a version request, it is executed
      as it stands. Otherwise what is executed is the content of a sealed frame of this session whose
      counter is new and not too old, and each counter counts once; a repeated PIPE frame is passed
      over in silence, and anything else is refused in plain. */
  ghost predicate Served(cipher: BlockModes.Cipher, sha: bytes, b: Before, a: Before, policy: Policy, wire: bytes,
                         intact: bool, executed: Option<bytes>, ok: bool)
    requires 2 <= |wire|
  {
    var open := !Enabled(policy) || Version(wire);
    var due := Addressed(b.session, wire) && Unseen(b.session.accepted, FrameCounter(wire));
    && (executed.Some? <==> open || (due && intact && Unwire(cipher, b.session.key, wire).Some?))
    && (if executed.Some? && !open then Received(b.session, a.session, FrameCounter(wire)) else a.session == b.session)
    && match executed
       case Some(command) =>
         |command| >= 2 && Entitled(policy, cipher, b.session.key, wire, command) && Executed(sha, b, a, command, ok)
       case None =>
         if Piped(b.session, wire) && !due then ok && Answered(b, a, [])
         else
           var status := if b.session.authenticated then BAD_FRAME else NO_SESSION;
           Answered(b, a, [PanelIo.Sent([0, wire[1], status], ok)])
  }

  /** With a policy in force nothing but a version request is executed without a session that was
      already there, and no counter is executed twice; what is not executed changes no
      configuration, and moves the transfer only to its end. */
  lemma OnlyTheSession(cipher: BlockModes.Cipher, sha: bytes, b: Before, met: Before, a: Before, policy: Policy,
                       now: nat, wire: bytes, intact: bool, executed: Option<bytes>, ok: bool)
    requires 2 <= |wire| && (b.session.authenticated ==> b.session.phase.Session?)
    requires Aged(b, met, policy, now) && Served(cipher, sha, met, a, policy, wire, intact, executed, ok)
    ensures executed.Some? && Enabled(policy) && !Version(wire) ==>
      && b.session.authenticated && met == b && Addressed(b.session, wire)
      && a.session.authenticated && a.session.key == b.session.key && FrameCounter(wire) !in b.session.accepted
      && a.session.accepted == b.session.accepted + {FrameCounter(wire)}
    ensures Enabled(policy) && !b.session.authenticated && !Version(wire) ==>
      executed.None? && a.transfer.trace == b.transfer.trace + [PanelIo.Sent([0, wire[1], 0xfe], ok)]
    ensures Enabled(policy) && wire[..2] == [0x00, 0x81] && Addressed(met.session, wire)
            && !Unseen(b.session.accepted, FrameCounter(wire)) ==>
      ok && executed.None? && a.transfer.trace == b.transfer.trace
    ensures executed.None? && met.session.authenticated && !Addressed(met.session, wire) ==>
      met == b && a.transfer.trace == b.transfer.trace + [PanelIo.Sent([0, wire[1], 0xff], ok)]
    ensures executed.None? ==>
      a.config.effective == b.config.effective && OnlyAnswers(a.transfer.trace, b.transfer.trace)
  {
    hide Protocol.Effect, Protocol.Stores, Unwire, FrameCounter, Entitled, Executed, Lifetime;
  }

  /** Nothing but answers, and the end of a transfer. */
  ghost predicate OnlyAnswers(trace: seq<PanelIo.Event>, from: seq<PanelIo.Event>) {
    from <= trace && forall k :: |from| <= k < |trace| ==> trace[k].Sent? || trace[k].Aborted?
  }

  method Serve(sec: Sessions, p: Protocol.Protocol, frame: array<byte>, size: nat, policy: Policy)
    returns (ok: bool, ghost executed: Option<bytes>)
    requires sec.Valid() && p.Valid() && 2 <= size <= Frames.MAX_FRAME && size <= frame.Length
        && frame != p.config.flash.mem
    modifies sec`phase, sec`accepted, sec.aes`failures, p, p.io, p.io.epd, p.config, p.config.flash,
        p.config.flash.mem, frame
    ensures sec.Valid() && p.Valid() && old(p.io.trace) <= p.io.trace
    ensures Served(sec.aes.cipher, p.sha, old(Look(sec, p)), Look(sec, p), policy, old(frame[..size]),
                   sec.aes.failures == old(sec.aes.failures), executed, ok)
  {
    hide Unwire, Limiter, SessionOk, Entitled, FrameCounter, Unseen;
    hide Protocol.Protocol.Linked, Protocol.Protocol.Running, Protocol.Protocol.Idle, Protocol.Protocol.Inv,
        Protocol.Effect, Protocol.Stores, Protocol.Protocol.Settings;
    hide ConfigStore.Store.Valid, ConfigStore.Store.Effective;
    executed := None;
    assert frame[..size][..2] == frame[..2];
    ghost var before := p.io.trace;
    var a := Check(sec, policy, frame, size);
    match a {
      case Admit(n) =>
        executed := Some(frame[..n]);
        ok := p.Handle(frame[..n]);
      case Ignore =>
        assert before + [] == before;
        ok := true;
      case Refuse(status) =>
        ok := p.Tell([0, frame[1], status]);
    }
  }

  /** An authentication request: it ends any transfer and upload, and is answered. */
  ghost predicate Questioned(cipher: BlockModes.Cipher, b: Before, a: Before, policy: Policy, request: bytes, now: nat,
                             device: Device4, random: Option<BlockModes.Block>, time: nat, intact: bool, reply: bytes,
                             ok: bool)
    requires b.session.pending ==> b.session.phase.Handshake?
  {
    && AuthDone(cipher, b.session, a.session, policy, request, now, device, random, time, reply, intact)
    && a.config == Protocol.Settled(b.config.effective, b.config.faults)
    && a.transfer == Protocol.Rested(b.transfer, Protocol.NamedBase(b.transfer),
                                  b.transfer.trace + Protocol.Aborts(b.transfer.active) + [PanelIo.Sent(reply, ok)])
  }

  method Question(sec: Sessions, p: Protocol.Protocol, policy: Policy, request: bytes, now: nat, device: Device4,
                  random: Option<BlockModes.Block>, ghost time: nat)
    returns (ok: bool, reply: bytes)
    requires sec.Valid() && p.Valid() && now == time % TWO_32 && sec.history.track.clock <= time
    modifies sec, sec.aes`failures, p, p.io, p.io.epd, p.config
    ensures sec.Valid() && p.Valid() && old(p.io.trace) <= p.io.trace
    ensures Questioned(sec.aes.cipher, old(Look(sec, p)), Look(sec, p), policy, request, now, device, random, time,
                       sec.aes.failures == old(sec.aes.failures), reply, ok)
  {
    hide Limiter, SessionOk, AuthDone;
    hide Protocol.Protocol.Linked, Protocol.Protocol.Running, Protocol.Protocol.Idle, Protocol.Protocol.Inv;
    hide ConfigStore.Store.Valid, ConfigStore.Store.Effective;
    p.Drop();
    p.NothingOpen();
    reply := sec.Auth(policy, request, now, device, random, time);
    ok := p.Tell(reply);
  }

  /** How a command fared: the policy in force, the state it met once an expired session was dropped,
      the command that was executed, the answer to an authentication request, whether AES stayed
      intact, and what dispatch reports. */
  datatype Account = Account(policy: Policy, met: Before, executed: Option<bytes>, reply: bytes, intact: bool, ok: bool)

  /** Each flag of the session names the user of its storage. */
  predicate Coherent(s: SessionShot) {
    (s.authenticated ==> s.phase.Session?) && (s.pending ==> s.phase.Handshake?)
  }

  /** Everything dispatch does, from the state before it to the state after it: it applies the security
      packet of the configuration in force, drops an expired session, and then answers an
      authentication request or serves any other command. */
  ghost predicate Dispatched(cipher: BlockModes.Cipher, sha: bytes, b: Before, a: Before, wire: bytes, device: Device4,
                             random: Option<BlockModes.Block>, time: nat, d: Account)
  {
    && |wire| >= 2 && Coherent(b.session) && Coherent(d.met.session)
    && Validate(b.config.effective) == Verdict.Valid && d.policy == PolicyOf(b.config.effective)
    && Aged(b, d.met, d.policy, time % TWO_32)
    && if Authentication(wire) then
         && d.executed.None?
         && Questioned(cipher, d.met, a, d.policy, wire[2..], time % TWO_32, device, random, time, d.intact, d.reply,
                       d.ok)
       else
         d.reply == [] && Served(cipher, sha, d.met, a, d.policy, wire, d.intact, d.executed, d.ok)
  }

  /** dispatch. */
  method Dispatch(sec: Sessions, p: Protocol.Protocol, frame: array<byte>, size: nat, now: nat, device: Device4,
                  random: Option<BlockModes.Block>, ghost time: nat)
    returns (ok: bool, ghost d: Account)
    requires sec.Valid() && p.Valid() && 2 <= size <= Frames.MAX_FRAME && size <= frame.Length
        && frame != p.config.flash.mem
    requires now == time % TWO_32 && sec.history.track.clock <= time
    modifies sec, sec.aes`failures, p, p.io, p.io.epd, p.config, p.config.flash, p.config.flash.mem, frame
    ensures sec.Valid() && p.Valid() && old(p.io.trace) <= p.io.trace
    ensures d.ok == ok && d.intact == (sec.aes.failures == old(sec.aes.failures))
    ensures Dispatched(sec.aes.cipher, p.sha, old(Look(sec, p)), Look(sec, p), old(frame[..size]), device, random,
                       time, d)
  {
    hide Validate, PolicyOf, Unwire, Limiter, SessionOk, Questioned, Served, Aged;
    hide Protocol.Protocol.Linked, Protocol.Protocol.Running, Protocol.Protocol.Idle, Protocol.Protocol.Inv;
    hide ConfigStore.Store.Valid, ConfigStore.Store.Effective;
    ghost var failures := sec.aes.failures;
    var policy := ReadPolicy(p.config);
    IsCoherent(sec);
    Expire(sec, p, policy, now);
    IsCoherent(sec);
    d := Account(policy, Look(sec, p), None, [], true, true);
    assert frame[..size][..2] == frame[..2] && frame[..size][2..] == frame[2..size];
    if frame[0] == 0 && frame[1] == 0x50 {
      var reply;
      ok, reply := Question(sec, p, policy, frame[2..size], now, device, random, time);
      d := d.(reply := reply);
    } else {
      ghost var executed;
      ok, executed := Serve(sec, p, frame, size, policy);
      d := d.(executed := executed);
    }
    d := d.(ok := ok, intact := sec.aes.failures == failures);
  }

  lemma IsCoherent(sec: Sessions)
    requires sec.Valid()
    ensures Coherent(sec.Now())
  {
    hide Limiter;
  }
}
