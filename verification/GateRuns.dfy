/** Whole runs of the command dispatch from power-on: any commands, policies, failures and losses of the
    connection. What is executed under a policy was sealed in the session then open, once, and a
    session opens only to a proof of the master key. */
module GateRuns {
  import opened Bytes
  import opened BlockModes
  import opened Crypto
  import opened Gate
  import opened Security
  import ConfigStore
  import Container
  import Frames
  import Protocol
  import ProtocolRuns
  import RateLimit

  /** What the main loop does next: hand on a command that came so long after the one before, wipe the
      session (as after a change of the configuration), start over on a new connection, or give up on
      silence. */
  datatype Input = Command(delay: nat, data: bytes, random: Option<Block>) | Wipe | Reconnect | Silence

  /** What one of these did: when, the state before it, after dispatch and after it, and how a command
      fared. */
  datatype Turn = Turn(input: Input, time: nat, before: Before, done: Before, after: Before, account: Option<Account>)

  /** The transfer is dropped. */
  function Dropped(b: Before): Before {
    var t := b.transfer;
    b.(transfer := Protocol.Rested(t, Protocol.NamedBase(t), t.trace + Protocol.Aborts(t.active)))
  }

  /** The transfer and the configuration upload are dropped. */
  function Cancelled(b: Before): Before {
    Dropped(b).(config := Protocol.Settled(b.config.effective, b.config.faults))
  }

  function Forgotten(b: Before): Before {
    b.(session := Emptied(b.session))
  }

  /** One turn of the main loop. A command whose size no connection accepts never gets this far. */
  ghost predicate Step(cipher: Cipher, sha: bytes, device: Device4, t: Turn) {
    match t.input
    case Command(_, data, random) =>
      if !(2 <= |data| <= 244) then t.account.None? && t.after == t.before
      else
        && t.account.Some?
        && Dispatched(cipher, sha, t.before, t.done, data, device, random, t.time, t.account.value)
        && t.after == if t.account.value.ok then t.done else Dropped(t.done)
    case Wipe => t.account.None? && t.after == Forgotten(t.before)
    case Reconnect => t.account.None? && t.after == Forgotten(Cancelled(t.before))
    case Silence => t.account.None? && t.after == Cancelled(t.before)
  }

  /** Time since power-on. */
  function Clock(inputs: seq<Input>): nat {
    if inputs == [] then 0
    else
      var last := inputs[|inputs| - 1];
      Clock(inputs[..|inputs| - 1]) + Delay(last)
  }

  function Delay(input: Input): nat {
    if input.Command? then input.delay else 0
  }

  /** Where a run stands. */
  function Final(start: Before, log: seq<Turn>): Before {
    if log == [] then start else log[|log| - 1].after
  }

  /** A run of these inputs, turn by turn. */
  ghost predicate History(cipher: Cipher, sha: bytes, device: Device4, start: Before, inputs: seq<Input>,
                          log: seq<Turn>)
  {
    && |log| == |inputs|
    && forall j :: 0 <= j < |log| ==>
         && log[j].input == inputs[j] && log[j].time == Clock(inputs[..j + 1])
         && log[j].before == Final(start, log[..j]) && Step(cipher, sha, device, log[j])
  }

  // ----- what a run may be relied on for

  function Reply(t: Turn): bytes {
    if t.account.Some? then t.account.value.reply else []
  }

  /** What was executed. */
  function Done(t: Turn): Option<bytes> {
    if t.account.Some? then t.account.value.executed else None
  }

  /** A command that was executed although a policy was in force, and not as a version request. */
  predicate Sealed(t: Turn) {
    && Done(t).Some? && t.input.Command? && |t.input.data| >= 18
    && Enabled(t.account.value.policy) && !Version(t.input.data)
  }

  /** An answer that opens a session, and one that hands a challenge out. */
  predicate Opened(t: Turn) {
    |Reply(t)| == 19
  }

  predicate Handed(t: Turn) {
    |Reply(t)| == 23
  }

  /** The last turn so far that opened a session, or handed a challenge out. */
  function LastOpen(log: seq<Turn>): Option<nat> {
    if log == [] then None
    else if Opened(log[|log| - 1]) then Some(|log| - 1)
    else LastOpen(log[..|log| - 1])
  }

  function LastHanded(log: seq<Turn>): Option<nat> {
    if log == [] then None
    else if Handed(log[|log| - 1]) then Some(|log| - 1)
    else LastHanded(log[..|log| - 1])
  }

  /** The request proves the master key of the policy on this server challenge, the session key is the
      one both sides derive, and the reply proves that in turn. */
  ghost predicate ProvedBy(cipher: Cipher, device: Device4, policy: Policy, request: bytes, server: Block, key: Block,
                           id: bytes, reply: bytes)
  {
    && Enabled(policy) && |request| == 32
    && var master, client := policy.value[1..17], request[..16];
    && request[16..] == ClientProof(cipher, master, server, client, device)
    && key == SessionKey(cipher, master, server, client, device) && id == SessionId(cipher, key, server, client)
    && reply == [0x00, 0x50, 0x00] + ServerProof(cipher, key, server, client, device)
  }

  /** A session was opened with this server challenge by an authentication request. */
  ghost predicate OpenedWith(cipher: Cipher, device: Device4, t: Turn, server: Block) {
    && t.input.Command? && |t.input.data| >= 2 && t.input.data[..2] == [0x00, 0x50] && t.account.Some?
    && var s := t.after.session;
    && ProvedBy(cipher, device, t.account.value.policy, t.input.data[2..], server, s.key, s.id, Reply(t))
  }

  /** Milliseconds between two turns, as a 32-bit clock measures them. */
  function Between(from: Turn, to: Turn): nat {
    (to.time - from.time) % 0x1_0000_0000
  }

  /** A session opens within 30 seconds on the challenge handed out last, and no other was opened on it.
      Under a policy what is executed is a version request or the content of a frame sealed under the key
      of the session opened last, within the lifetime the policy gives it in seconds, and no command
      executed since then had its counter. */
  ghost predicate Genuine(cipher: Cipher, device: Device4, log: seq<Turn>, j: nat)
    requires j < |log|
  {
    var t, k, h := log[j], LastOpen(log[..j]), LastHanded(log[..j]);
    && (Opened(t) ==>
          && h.Some? && h.value < j && Handed(log[h.value]) && (k.Some? ==> k.value < h.value)
          && Between(log[h.value], t) < 30000
          && OpenedWith(cipher, device, t, Reply(log[h.value])[3..19]))
    && (Done(t).Some? && Enabled(t.account.value.policy) ==>
          t.input.Command? && |t.input.data| >= 2 && (t.input.data[..2] == [0x00, 0x43] || Sealed(t)))
    && (Sealed(t) ==>
          && k.Some? && k.value < j && 31 <= |t.input.data| <= 244
          && t.input.data[2..10] == log[k.value].after.session.id && FrameCounter(t.input.data) < TWO_63
          && WithinLife(t.account.value.policy.value, Between(log[k.value], t))
          && Unwire(cipher, log[k.value].after.session.key, t.input.data) == Done(t)
          && forall i :: k.value < i < j && Sealed(log[i]) ==>
               FrameCounter(log[i].input.data) != FrameCounter(t.input.data))
  }

  /** The lifetime of a session is given in seconds, 0 for none. */
  predicate WithinLife(policy: bytes, age: nat)
    requires |policy| >= 19
  {
    var seconds := Val(policy[17]) + 256 * Val(policy[18]);
    seconds == 0 || age < 1000 * seconds
  }

  /** What is not executed changes no configuration and leaves nothing on record but answers and the end
      of a transfer. */
  ghost predicate Idle(t: Turn) {
    Done(t).None? ==>
      && t.after.config.effective == t.before.config.effective
      && OnlyAnswers(t.after.transfer.trace, t.before.transfer.trace)
  }

  ghost predicate AllGenuine(cipher: Cipher, device: Device4, log: seq<Turn>) {
    forall j :: 0 <= j < |log| ==> Genuine(cipher, device, log, j) && Idle(log[j])
  }

  // ----- why

  /** The session is the one opened last, and has accepted what was sealed since; a pending challenge is
      the one handed out last, and no session was opened on it. */
  ghost predicate Current(s: SessionShot, log: seq<Turn>) {
    && Coherent(s)
    && (s.authenticated ==>
          var k := LastOpen(log);
          && k.Some? && k.value < |log|
          && log[k.value].after.session.key == s.key && log[k.value].after.session.id == s.id
          && s.phase.started == log[k.value].time % TWO_32
          && forall i :: k.value < i < |log| && Sealed(log[i]) ==> FrameCounter(log[i].input.data) in s.accepted)
    && (s.pending ==>
          var k, h := LastOpen(log), LastHanded(log);
          && h.Some? && h.value < |log| && Handed(log[h.value]) && (k.Some? ==> k.value < h.value)
          && s.phase.challenge == Reply(log[h.value])[3..19] && s.phase.begun == log[h.value].time % TWO_32)
  }

  lemma Latest(log: seq<Turn>, t: Turn)
    ensures LastOpen(log + [t]) == if Opened(t) then Some(|log|) else LastOpen(log)
    ensures LastHanded(log + [t]) == if Handed(t) then Some(|log|) else LastHanded(log)
  {
    assert (log + [t])[..|log|] == log;
  }

  lemma {:induction false} Within(log: seq<Turn>)
    ensures LastOpen(log).Some? ==> LastOpen(log).value < |log|
    ensures LastHanded(log).Some? ==> LastHanded(log).value < |log|
  {
    if log == [] {
    } else {
      Within(log[..|log| - 1]);
    }
  }

  /** A session that stays as it is, or ends, or takes a counter in. */
  lemma CurrentStays(s: SessionShot, a: SessionShot, log: seq<Turn>, t: Turn)
    requires Current(s, log) && Coherent(a) && !Opened(t) && !Handed(t)
    requires a.authenticated ==>
      && s.authenticated && a.key == s.key && a.id == s.id && s.accepted <= a.accepted
      && a.phase.started == s.phase.started
    requires a.authenticated && Sealed(t) ==> FrameCounter(t.input.data) in a.accepted
    requires a.pending ==> s.pending && a.phase == s.phase
    ensures Current(a, log + [t])
  {
    hide FrameCounter, LastOpen, LastHanded;
    Latest(log, t);
  }

  lemma CurrentOpens(a: SessionShot, log: seq<Turn>, t: Turn)
    requires Opened(t) && t.after.session == a && Coherent(a) && !a.pending
    requires a.authenticated ==> a.phase.started == t.time % TWO_32
    ensures Current(a, log + [t])
  {
    hide LastOpen, LastHanded;
    Latest(log, t);
  }

  lemma CurrentHands(a: SessionShot, log: seq<Turn>, t: Turn)
    requires Handed(t) && Coherent(a) && !a.authenticated
    requires a.pending ==> a.phase.challenge == Reply(t)[3..19] && a.phase.begun == t.time % TWO_32
    ensures Current(a, log + [t])
  {
    hide LastOpen, LastHanded;
    Latest(log, t);
    Within(log);
  }

  lemma AgedIsCurrent(b: Before, met: Before, policy: Policy, now: nat, log: seq<Turn>)
    requires Coherent(b.session) && Aged(b, met, policy, now) && Current(b.session, log)
    ensures Current(met.session, log) && OnlyAnswers(met.transfer.trace, b.transfer.trace)
    ensures met.config.effective == b.config.effective
  {
    hide LastOpen, LastHanded, FrameCounter, Lifetime;
  }

  /** A sealed command whose counter the session has not accepted is genuine. */
  lemma SealedIsNew(cipher: Cipher, device: Device4, s: SessionShot, log: seq<Turn>, t: Turn)
    requires Current(s, log) && s.authenticated && Sealed(t) && !Opened(t)
    requires 31 <= |t.input.data| <= 244 && Unwire(cipher, s.key, t.input.data) == Done(t)
    requires FrameCounter(t.input.data) !in s.accepted && Addressed(s, t.input.data)
    requires !Outlived(t.account.value.policy, true, s.phase, t.time % TWO_32)
    ensures Genuine(cipher, device, log + [t], |log|)
  {
    hide Unwire, FrameCounter, LastOpen, LastHanded, OpenedWith, Val;
    assert (log + [t])[..|log|] == log;
    OnTheClock(t.time, log[LastOpen(log).value].time);
  }

  /** The 32-bit clock measures true time but for whole turns of it. */
  lemma OnTheClock(time: nat, start: nat)
    ensures RateLimit.Elapsed(time % TWO_32, start % TWO_32) == (time - start) % 0x1_0000_0000
  {
    var q := time / TWO_32 - start / TWO_32;
    assert time - start == (time % TWO_32 - start % TWO_32) + TWO_32 * q;
    RateLimit.ModShift(time % TWO_32 - start % TWO_32, q);
  }

  lemma NeitherIsGenuine(cipher: Cipher, device: Device4, log: seq<Turn>, t: Turn)
    requires !Opened(t) && !Sealed(t)
    requires Done(t).Some? && Enabled(t.account.value.policy) ==>
      t.input.Command? && |t.input.data| >= 2 && Version(t.input.data)
    ensures Genuine(cipher, device, log + [t], |log|)
  {
    hide Unwire, FrameCounter, LastOpen, LastHanded, OpenedWith, WithinLife;
  }

  lemma OpenIsGenuine(cipher: Cipher, device: Device4, s: SessionShot, log: seq<Turn>, t: Turn)
    requires Current(s, log) && s.pending && Opened(t) && Done(t).None?
    requires OpenedWith(cipher, device, t, s.phase.challenge)
    requires RateLimit.Elapsed(t.time % TWO_32, s.phase.begun) < 30000
    ensures Genuine(cipher, device, log + [t], |log|)
  {
    hide Unwire, FrameCounter, LastOpen, LastHanded, OpenedWith;
    assert (log + [t])[..|log|] == log;
    OnTheClock(t.time, log[LastHanded(log).value].time);
  }

  /** A command other than authentication. */
  lemma ServedTurn(cipher: Cipher, sha: bytes, device: Device4, log: seq<Turn>, t: Turn)
    requires t.input.Command? && t.account.Some? && !(|t.input.data| >= 2 && Authentication(t.input.data))
    requires Dispatched(cipher, sha, t.before, t.done, t.input.data, device, t.input.random, t.time, t.account.value)
    requires Current(t.before.session, log) && t.after.session == t.done.session
    ensures Genuine(cipher, device, log + [t], |log|) && Current(t.after.session, log + [t])
    ensures Done(t).None? ==>
      && t.done.config.effective == t.before.config.effective
      && OnlyAnswers(t.done.transfer.trace, t.before.transfer.trace)
  {
    hide Unwire, FrameCounter, LastOpen, LastHanded, Aged, Current, Container.Validate, PolicyOf;
    hide Protocol.Effect, Protocol.Stores, Executed, OpenedWith, Genuine;
    var d, wire, now := t.account.value, t.input.data, t.time % TWO_32;
    AgedIsCurrent(t.before, d.met, d.policy, now, log);
    OnlyTheSession(cipher, sha, t.before, d.met, t.done, d.policy, now, wire, d.intact, d.executed, d.ok);
    if Sealed(t) {
      StillAlive(t.before, d.met, d.policy, now);
      SealedIsNew(cipher, device, t.before.session, log, t);
    } else {
      NeitherIsGenuine(cipher, device, log, t);
    }
    CurrentStays(d.met.session, t.done.session, log, t);
  }

  lemma StillAlive(b: Before, met: Before, policy: Policy, now: nat)
    requires Coherent(b.session) && Aged(b, met, policy, now) && b.session.authenticated && met == b
    ensures !Outlived(policy, true, b.session.phase, now)
  {
    hide Lifetime;
  }

  /** An authentication request. */
  lemma QuestionedTurn(cipher: Cipher, sha: bytes, device: Device4, log: seq<Turn>, t: Turn)
    requires t.input.Command? && t.account.Some? && |t.input.data| >= 2 && Authentication(t.input.data)
    requires Dispatched(cipher, sha, t.before, t.done, t.input.data, device, t.input.random, t.time, t.account.value)
    requires Current(t.before.session, log) && t.after.session == t.done.session
    ensures Genuine(cipher, device, log + [t], |log|) && Current(t.after.session, log + [t])
    ensures Done(t).None? && t.done.config.effective == t.before.config.effective
    ensures OnlyAnswers(t.done.transfer.trace, t.before.transfer.trace)
  {
    hide LastOpen, LastHanded, Aged, Current, Container.Validate, PolicyOf, AuthDone, Genuine, ProvedBy;
    var d, s, a, request := t.account.value, t.account.value.met.session, t.done.session, t.input.data[2..];
    AgedIsCurrent(t.before, d.met, d.policy, t.time % TWO_32, log);
    Answers(cipher, s, a, d.policy, request, t.time % TWO_32, device, t.input.random, t.time, d.reply, d.intact);
    if Opened(t) {
      Proves(cipher, s, a, d.policy, request, t.time % TWO_32, device, t.input.random, t.time, d.reply, d.intact);
      OpenIsGenuine(cipher, device, s, log, t);
      CurrentOpens(a, log, t);
    } else {
      NeitherIsGenuine(cipher, device, log, t);
      if Handed(t) {
        CurrentHands(a, log, t);
      } else {
        CurrentStays(s, a, log, t);
      }
    }
  }

  /** What the length of the answer says. */
  lemma Answers(cipher: Cipher, b: SessionShot, a: SessionShot, policy: Policy, p: bytes, now: nat, device: Device4,
                random: Option<Block>, time: nat, reply: bytes, intact: bool)
    requires Coherent(b) && AuthDone(cipher, b, a, policy, p, now, device, random, time, reply, intact)
    ensures Coherent(a)
    ensures |reply| == 19 ==> b.pending && !a.pending
    ensures |reply| == 19 && a.authenticated ==> a.phase.started == now
    ensures |reply| == 23 ==>
      !a.authenticated && (a.pending ==> a.phase.challenge == reply[3..19] && a.phase.begun == now)
    ensures |reply| != 19 && a.authenticated ==>
      b.authenticated && a.key == b.key && a.id == b.id && a.accepted == b.accepted && a.phase == b.phase
    ensures |reply| != 23 && a.pending ==> b.pending && a.phase == b.phase
  {
    hide SessionKey, ClientProof, SessionId, ServerProof, Limited;
  }

  /** An answer that opens a session is one to the right proof. */
  lemma Proves(cipher: Cipher, b: SessionShot, a: SessionShot, policy: Policy, p: bytes, now: nat, device: Device4,
               random: Option<Block>, time: nat, reply: bytes, intact: bool)
    requires Coherent(b) && AuthDone(cipher, b, a, policy, p, now, device, random, time, reply, intact)
    requires |reply| == 19
    ensures b.pending && ProvedBy(cipher, device, policy, p, b.phase.challenge, a.key, a.id, reply)
    ensures RateLimit.Elapsed(now, b.phase.begun) < 30000
  {
    hide SessionKey, ClientProof, SessionId, ServerProof, Limited;
  }

  /** One more turn of any kind. */
  lemma NextTurn(cipher: Cipher, sha: bytes, device: Device4, log: seq<Turn>, t: Turn)
    requires Step(cipher, sha, device, t) && Current(t.before.session, log)
    ensures Genuine(cipher, device, log + [t], |log|) && Idle(t) && Current(t.after.session, log + [t])
  {
    hide LastOpen, LastHanded, FrameCounter, Current, Dispatched, Genuine;
    if t.account.Some? {
      assert t.after.session == t.done.session;
      if Authentication(t.input.data) {
        QuestionedTurn(cipher, sha, device, log, t);
      } else {
        ServedTurn(cipher, sha, device, log, t);
      }
    } else {
      NeitherIsGenuine(cipher, device, log, t);
      IsCoherentNow(t.before.session, log);
      CurrentStays(t.before.session, t.after.session, log, t);
    }
  }

  lemma IsCoherentNow(s: SessionShot, log: seq<Turn>)
    requires Current(s, log)
    ensures Coherent(s)
  {
    hide LastOpen, LastHanded, FrameCounter;
  }

  lemma GenuineStays(cipher: Cipher, device: Device4, log: seq<Turn>, t: Turn, j: nat)
    requires j < |log| && Genuine(cipher, device, log, j)
    ensures Genuine(cipher, device, log + [t], j)
  {
    hide Unwire, FrameCounter, LastOpen, LastHanded, OpenedWith;
    assert (log + [t])[..j] == log[..j];
  }

  /** Over any run that starts without a session and without a pending challenge: sessions open only to
      a proof of the master key on a fresh challenge, under a policy every command executed but a
      version request was sealed in the session opened last, each counter of a session executes one
      command, and nothing else leaves more on record than answers and dropped transfers. */
  lemma {:induction false} OnlyGenuine(cipher: Cipher, sha: bytes, device: Device4, start: Before, inputs: seq<Input>,
                                       log: seq<Turn>)
    requires History(cipher, sha, device, start, inputs, log)
    requires !start.session.authenticated && !start.session.pending
    ensures AllGenuine(cipher, device, log) && Current(Final(start, log).session, log)
  {
    hide Step, Genuine, Current, Idle, Clock;
    if log == [] {
      NothingYet(start.session);
    } else {
      var n := |log| - 1;
      HistoryPrefix(cipher, sha, device, start, inputs, log);
      OnlyGenuine(cipher, sha, device, start, inputs[..n], log[..n]);
      NextTurn(cipher, sha, device, log[..n], log[n]);
      AllStays(cipher, device, log[..n], log[n]);
      assert log[..n] + [log[n]] == log;
    }
  }

  lemma AllStays(cipher: Cipher, device: Device4, log: seq<Turn>, t: Turn)
    requires AllGenuine(cipher, device, log) && Genuine(cipher, device, log + [t], |log|) && Idle(t)
    ensures AllGenuine(cipher, device, log + [t])
  {
    hide Genuine, Idle;
    forall j | 0 <= j < |log|
      ensures Genuine(cipher, device, log + [t], j) && Idle((log + [t])[j])
    {
      GenuineStays(cipher, device, log, t, j);
    }
  }

  lemma NothingYet(s: SessionShot)
    requires !s.authenticated && !s.pending
    ensures Current(s, [])
  {
  }

  lemma HistoryPrefix(cipher: Cipher, sha: bytes, device: Device4, start: Before, inputs: seq<Input>, log: seq<Turn>)
    requires History(cipher, sha, device, start, inputs, log) && log != []
    ensures History(cipher, sha, device, start, inputs[..|log| - 1], log[..|log| - 1])
  {
    hide Step, Clock;
    var n := |log| - 1;
    assert forall j :: 0 <= j < n ==> inputs[..n][..j + 1] == inputs[..j + 1] && log[..n][..j] == log[..j];
  }

  // ----- the main loop makes such runs

  /** One command, dispatched as the main loop does it. */
  method HandOn(sec: Sessions, p: Protocol.Protocol, input: Input, device: Device4, time: nat) returns (ghost t: Turn)
    requires sec.Valid() && p.Valid() && input.Command? && sec.history.track.clock <= time
    modifies sec, sec.aes`failures, p, p.io, p.io.epd, p.config, p.config.flash, p.config.flash.mem
    ensures sec.Valid() && p.Valid() && sec.history.track.clock <= time
    ensures t.input == input && t.time == time && t.before == old(Look(sec, p)) && t.after == Look(sec, p)
    ensures Step(sec.aes.cipher, p.sha, device, t)
  {
    hide Limiter, SessionOk, Dispatched;
    hide Protocol.Protocol.Linked, Protocol.Protocol.Running, Protocol.Protocol.Idle, Protocol.Protocol.Inv;
    hide ConfigStore.Store.Valid, ConfigStore.Store.Effective;
    var data := input.data;
    ghost var b := Look(sec, p);
    t := Turn(input, time, b, b, b, None);
    if 2 <= |data| <= Frames.MAX_FRAME {
      var frame := new byte[|data|](i requires 0 <= i < |data| => data[i]);
      assert frame[..|data|] == data;
      var ok;
      ghost var d;
      ok, d := Dispatch(sec, p, frame, |data|, time % TWO_32, device, input.random, time);
      ClockKept(sec.aes.cipher, p.sha, b, Look(sec, p), data, device, input.random, time, d);
      ghost var done := Look(sec, p);
      if !ok {
        ProtocolRuns.Stop(p);
      }
      t := Turn(input, time, b, done, Look(sec, p), Some(d));
    }
  }

  lemma ClockKept(cipher: Cipher, sha: bytes, b: Before, a: Before, wire: bytes, device: Device4, random: Option<Block>,
                  time: nat, d: Account)
    requires Dispatched(cipher, sha, b, a, wire, device, random, time, d)
    requires b.session.history.track.clock <= time
    ensures a.session.history.track.clock <= time
  {
    hide Unwire, FrameCounter, Container.Validate, PolicyOf, Executed, Entitled, Lifetime, Proven, Unseen;
  }

  /** The other turns. */
  method Lose(sec: Sessions, p: Protocol.Protocol, input: Input, time: nat) returns (ghost t: Turn)
    requires sec.Valid() && p.Valid() && !input.Command?
    modifies sec, p, p.io, p.io.epd, p.config
    ensures sec.Valid() && p.Valid() && sec.history == old(sec.history)
    ensures t.input == input && t.time == time && t.before == old(Look(sec, p)) && t.after == Look(sec, p)
    ensures t.account == None && t.after == match input
            case Wipe => Forgotten(t.before)
            case Reconnect => Forgotten(Cancelled(t.before))
            case _ => Cancelled(t.before)
  {
    hide Limiter, SessionOk;
    hide Protocol.Protocol.Linked, Protocol.Protocol.Running, Protocol.Protocol.Idle, Protocol.Protocol.Inv;
    hide ConfigStore.Store.Valid, ConfigStore.Store.Effective;
    ghost var b := Look(sec, p);
    if !input.Wipe? {
      p.Drop();
      p.NothingOpen();
    }
    if !input.Silence? {
      sec.Reset();
    }
    t := Turn(input, time, b, b, Look(sec, p), None);
  }

  /** The main loop from power-on: its turns are a run of its inputs, from where it started to where it
      now stands. Hence what is executed under a policy is genuine, and nothing else does anything. */
  method Run(aes: Aes, p: Protocol.Protocol, device: Device4, inputs: seq<Input>)
    returns (ghost start: Before, ghost log: seq<Turn>)
    requires p.Valid()
    modifies aes`failures, p, p.io, p.io.epd, p.config, p.config.flash, p.config.flash.mem
    ensures p.Valid() && History(aes.cipher, p.sha, device, start, inputs, log)
    ensures start.transfer == old(p.Now()) && start.config == old(p.Settings()) && Cleared(start.session)
    ensures Final(start, log).transfer == p.Now() && Final(start, log).config == p.Settings()
    ensures AllGenuine(aes.cipher, device, log)
  {
    hide Limiter, SessionOk, Step, AllGenuine, History, Final, Clock;
    hide Protocol.Protocol.Linked, Protocol.Protocol.Running, Protocol.Protocol.Idle, Protocol.Protocol.Inv;
    hide ConfigStore.Store.Valid, ConfigStore.Store.Effective;
    var sec := new Sessions(aes);
    var time: nat := 0;
    start, log := Look(sec, p), [];
    NoTurns(aes.cipher, p.sha, device, start);
    for i := 0 to |inputs|
      invariant fresh(sec) && sec.aes == aes && sec.Valid() && p.Valid() && sec.history.track.clock <= time
      invariant time == Clock(inputs[..i]) && Final(start, log) == Look(sec, p)
      invariant History(aes.cipher, p.sha, device, start, inputs[..i], log)
    {
      ghost var t;
      ClockNext(inputs, i);
      time := time + Delay(inputs[i]);
      t := Next(sec, p, inputs[i], device, time);
      OneMoreTurn(aes.cipher, p.sha, device, start, inputs, i, log, t);
      log := log + [t];
    }
    assert inputs[..|inputs|] == inputs;
    OnlyGenuine(aes.cipher, p.sha, device, start, inputs, log);
  }

  /** One turn of the main loop. */
  method Next(sec: Sessions, p: Protocol.Protocol, input: Input, device: Device4, time: nat) returns (ghost t: Turn)
    requires sec.Valid() && p.Valid() && sec.history.track.clock <= time
    modifies sec, sec.aes`failures, p, p.io, p.io.epd, p.config, p.config.flash, p.config.flash.mem
    ensures sec.Valid() && p.Valid() && sec.history.track.clock <= time
    ensures t.input == input && t.time == time && t.before == old(Look(sec, p)) && t.after == Look(sec, p)
    ensures Step(sec.aes.cipher, p.sha, device, t)
  {
    hide Limiter, SessionOk, Step;
    hide Protocol.Protocol.Linked, Protocol.Protocol.Running, Protocol.Protocol.Idle, Protocol.Protocol.Inv;
    hide ConfigStore.Store.Valid, ConfigStore.Store.Effective;
    if input.Command? {
      t := HandOn(sec, p, input, device, time);
    } else {
      t := Lose(sec, p, input, time);
      LossIsStep(sec.aes.cipher, p.sha, device, t);
    }
  }

  lemma NoTurns(cipher: Cipher, sha: bytes, device: Device4, start: Before)
    ensures History(cipher, sha, device, start, [], []) && Final(start, []) == start && Clock([]) == 0
  {
  }

  lemma ClockNext(inputs: seq<Input>, i: nat)
    requires i < |inputs|
    ensures Clock(inputs[..i + 1]) == Clock(inputs[..i]) + Delay(inputs[i])
  {
    assert inputs[..i + 1][..i] == inputs[..i];
  }

  lemma LossIsStep(cipher: Cipher, sha: bytes, device: Device4, t: Turn)
    requires !t.input.Command? && t.account == None
    requires t.after == match t.input
             case Wipe => Forgotten(t.before)
             case Reconnect => Forgotten(Cancelled(t.before))
             case _ => Cancelled(t.before)
    ensures Step(cipher, sha, device, t)
  {
  }

  lemma OneMoreTurn(cipher: Cipher, sha: bytes, device: Device4, start: Before, inputs: seq<Input>, i: nat,
                    log: seq<Turn>, t: Turn)
    requires i < |inputs| && History(cipher, sha, device, start, inputs[..i], log)
    requires t.input == inputs[i] && t.time == Clock(inputs[..i + 1]) && t.before == Final(start, log)
    requires Step(cipher, sha, device, t)
    ensures History(cipher, sha, device, start, inputs[..i + 1], log + [t]) && Final(start, log + [t]) == t.after
  {
    hide Step, Clock;
    var more := log + [t];
    forall j | 0 <= j < |more|
      ensures more[j].input == inputs[..i + 1][j] && more[j].time == Clock(inputs[..i + 1][..j + 1])
      ensures more[j].before == Final(start, more[..j]) && Step(cipher, sha, device, more[j])
    {
      assert inputs[..i + 1][..j + 1] == inputs[..j + 1];
      if j < i {
        assert inputs[..i][..j + 1] == inputs[..j + 1] && more[..j] == log[..j] && more[j] == log[j];
      } else {
        assert more[..j] == log;
      }
    }
  }
}
