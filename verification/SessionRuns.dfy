/** Whole runs of the session layer from power-on: any requests under any policies, with any time
    between them, failures of AES and of the random source, resets and traffic. */
module SessionRuns {
  import opened Bytes
  import opened BlockModes
  import opened Crypto
  import opened RateLimit
  import opened Security

  datatype Call =
    | Authenticate(p: bytes, random: Option<Block>)
    | Receive(frame: bytes)
    | Transmit(plain: bytes)
    | Expire
    | Reset

  /** A call, how long after the one before it, and the policy then in force. */
  datatype Event = Event(delay: nat, policy: Policy, call: Call)

  /** When a challenge request was not turned away, how many challenges were handed out, and how many
      answers were put to the test. */
  datatype Ledger = Ledger(granted: seq<nat>, challenges: nat, verifications: nat)

  // ----- what an observer of the replies sees

  function Time(events: seq<Event>): nat {
    if events == [] then 0 else Time(events[..|events| - 1]) + events[|events| - 1].delay
  }

  /** A challenge request that was not turned away. */
  predicate Asked(e: Event, reply: bytes) {
    e.call.Authenticate? && Enabled(e.policy) && e.call.p == [0] && reply != AuthReply(STATUS_LIMITED)
  }

  function GrantTimes(events: seq<Event>, replies: seq<bytes>): seq<nat>
    requires |events| == |replies|
  {
    if events == [] then []
    else
      var n := |events| - 1;
      GrantTimes(events[..n], replies[..n]) + if Asked(events[n], replies[n]) then [Time(events)] else []
  }

  /** An answer that was found right or wrong. */
  predicate Judged(e: Event, reply: bytes) {
    e.call.Authenticate? && e.call.p != [0] && 3 <= |reply| && (reply[2] == STATUS_OK || reply[2] == STATUS_WRONG)
  }

  function Judgements(events: seq<Event>, replies: seq<bytes>): nat
    requires |events| == |replies|
  {
    if events == [] then 0
    else
      var n := |events| - 1;
      Judgements(events[..n], replies[..n]) + if Judged(events[n], replies[n]) then 1 else 0
  }

  /** A reply that hands a challenge out. */
  predicate Handed(e: Event, reply: bytes) {
    e.call.Authenticate? && e.call.p == [0] && |reply| == 23
  }

  function Handouts(events: seq<Event>, replies: seq<bytes>): nat
    requires |events| == |replies|
  {
    if events == [] then 0
    else
      var n := |events| - 1;
      Handouts(events[..n], replies[..n]) + if Handed(events[n], replies[n]) then 1 else 0
  }

  /** How many fall into the window that starts here, as a 32-bit clock measures it. */
  function Sharing(times: seq<nat>, start: nat): nat {
    if times == [] then 0
    else
      var n := |times| - 1;
      Sharing(times[..n], start) + if start <= times[n] && (times[n] - start) % 0x1_0000_0000 < 60000 then 1 else 0
  }

  /** Ten grants share a window with this moment. */
  ghost predicate Crowded(times: seq<nat>, time: nat) {
    exists start: nat :: start <= time && (time - start) % 0x1_0000_0000 < 60000 && Sharing(times, start) >= 10
  }

  /** The ledger is what the observer would write down, and a request is turned away only when ten
      grants share its window. */
  ghost predicate Observed(l: Ledger, events: seq<Event>, replies: seq<bytes>) {
    && |events| == |replies| && l.granted == GrantTimes(events, replies)
    && l.challenges == Handouts(events, replies) && Judgements(events, replies) <= l.verifications
    && forall i :: 0 <= i < |events| && replies[i] == AuthReply(STATUS_LIMITED) ==>
         Crowded(GrantTimes(events[..i], replies[..i]), Time(events[..i + 1]))
  }

  lemma ObservedNext(l: Ledger, m: Ledger, events: seq<Event>, replies: seq<bytes>, e: Event, reply: bytes)
    requires Observed(l, events, replies)
    requires m.granted == l.granted + if Asked(e, reply) then [Time(events) + e.delay] else []
    requires m.verifications >= l.verifications + if Judged(e, reply) then 1 else 0
    requires m.challenges == l.challenges + if Handed(e, reply) then 1 else 0
    requires reply == AuthReply(STATUS_LIMITED) ==> Crowded(l.granted, Time(events) + e.delay)
    ensures Observed(m, events + [e], replies + [reply])
  {
    hide Crowded;
    var es, rs := events + [e], replies + [reply];
    assert es[..|events|] == events && rs[..|events|] == replies;
    forall i | 0 <= i < |es| && rs[i] == AuthReply(STATUS_LIMITED)
      ensures Crowded(GrantTimes(es[..i], rs[..i]), Time(es[..i + 1]))
    {
      if i < |events| {
        assert es[..i] == events[..i] && rs[..i] == replies[..i] && es[..i + 1] == events[..i + 1];
      } else {
        assert es[..i + 1] == es;
      }
    }
  }

  lemma NothingObserved(s: SessionShot)
    requires !s.authenticated
    ensures Observed(Ledger([], 0, 0), [], []) && DistinctNonces([], []) && Remembered(s, [], [])
  {
  }

  // ----- the nonces of what is sent

  /** A reply that opens a session. */
  predicate Opens(e: Event, reply: bytes) {
    e.call.Authenticate? && |reply| == 19
  }

  /** A sealed frame that went out. */
  predicate Sends(e: Event, reply: bytes) {
    e.call.Transmit? && |reply| >= 31
  }

  /** No session was opened between these two. */
  predicate SameSession(events: seq<Event>, replies: seq<bytes>, i: nat, j: nat)
    requires |events| == |replies| && j <= |events|
  {
    forall k :: i < k < j ==> !Opens(events[k], replies[k])
  }

  /** No two frames sent in one session carry the same nonce, and none carries one of the other
      direction, whose counters lack the top bit. */
  predicate DistinctNonces(events: seq<Event>, replies: seq<bytes>) {
    && |events| == |replies|
    && (forall j :: 0 <= j < |events| && Sends(events[j], replies[j]) ==> Be(FrameNonce(replies[j])[5..]) >= TWO_63)
    && forall i, j | 0 <= i < j < |events| && Sends(events[i], replies[i]) && Sends(events[j], replies[j]) ::
         SameSession(events, replies, i, j) ==> FrameNonce(replies[i]) != FrameNonce(replies[j])
  }

  /** The session knows the nonces of all it has sent. */
  ghost predicate Remembered(s: SessionShot, events: seq<Event>, replies: seq<bytes>) {
    && |events| == |replies|
    && forall i | 0 <= i < |events| && s.authenticated && Sends(events[i], replies[i]) ::
         SameSession(events, replies, i, |events|) ==> FrameNonce(replies[i]) in s.nonces
  }

  /** What a call may do to the session and its nonces. */
  ghost predicate Moves(b: SessionShot, a: SessionShot, e: Event, reply: bytes) {
    if Sends(e, reply) then
      && b.authenticated && FrameNonce(reply) !in b.nonces && Be(FrameNonce(reply)[5..]) >= TWO_63
      && a.nonces == b.nonces + [FrameNonce(reply)]
    else
      !Opens(e, reply) && a.authenticated ==> b.authenticated && b.nonces <= a.nonces
  }

  lemma NoncesNext(b: SessionShot, a: SessionShot, events: seq<Event>, replies: seq<bytes>, e: Event, reply: bytes)
    requires DistinctNonces(events, replies) && Remembered(b, events, replies) && Moves(b, a, e, reply)
    ensures DistinctNonces(events + [e], replies + [reply]) && Remembered(a, events + [e], replies + [reply])
  {
    hide FrameNonce, Be;
    var es, rs, n := events + [e], replies + [reply], |events|;
    forall i, j | 0 <= i < j < |es| && Sends(es[i], rs[i]) && Sends(es[j], rs[j]) && SameSession(es, rs, i, j)
      ensures FrameNonce(rs[i]) != FrameNonce(rs[j])
    {
      SameBefore(events, replies, e, reply, i, j);
    }
    forall i | 0 <= i < |es| && a.authenticated && Sends(es[i], rs[i]) && SameSession(es, rs, i, |es|)
      ensures FrameNonce(rs[i]) in a.nonces
    {
      if i < n {
        assert !Opens(es[n], rs[n]);
        SameBefore(events, replies, e, reply, i, n);
      }
    }
  }

  lemma SameBefore(events: seq<Event>, replies: seq<bytes>, e: Event, reply: bytes, i: nat, j: nat)
    requires |events| == |replies| && j <= |events|
    ensures SameSession(events + [e], replies + [reply], i, j) == SameSession(events, replies, i, j)
    ensures SameSession(events + [e], replies + [reply], i, |events| + 1) ==>
      SameSession(events + [e], replies + [reply], i, j)
  {
    var es, rs := events + [e], replies + [reply];
    assert forall k :: 0 <= k < j ==> es[k] == events[k] && rs[k] == replies[k];
  }

  // ----- counting

  function CountTimes(times: seq<nat>, from: nat, to: nat): nat {
    if times == [] then 0
    else CountTimes(times[..|times| - 1], from, to) + if from <= times[|times| - 1] <= to then 1 else 0
  }

  /** How many fall into the 60,000 ms that start here, both ends included. */
  function InMinute(times: seq<nat>, from: nat): nat {
    CountTimes(times, from, from + 60000)
  }

  /** The ledger agrees with the limiter's own history. */
  ghost predicate Books(l: Ledger, h: History) {
    && |l.granted| == |h.track.grants|
    && (forall i :: 0 <= i < |l.granted| ==> l.granted[i] == h.track.grants[i].time)
    && l.challenges == h.challenges && l.verifications == h.verifications
  }

  lemma {:induction false} CountsAgree(times: seq<nat>, gs: seq<Grant>, from: nat, to: nat)
    requires |times| == |gs| && forall i :: 0 <= i < |gs| ==> times[i] == gs[i].time
    ensures CountTimes(times, from, to) == CountBetween(gs, from, to)
  {
    if times == [] {
    } else {
      CountsAgree(times[..|times| - 1], gs[..|gs| - 1], from, to);
    }
  }

  lemma {:induction false} SharedWindow(times: seq<nat>, gs: seq<Grant>, w: nat, start: nat)
    requires |times| == |gs| && forall i :: 0 <= i < |gs| ==> times[i] == gs[i].time
    requires forall i :: 0 <= i < |gs| && gs[i].window == w ==>
        start <= gs[i].time && Elapsed(gs[i].time, start) < WINDOW
    ensures CountWindow(gs, w) <= Sharing(times, start)
  {
    if gs == [] {
    } else {
      SharedWindow(times[..|gs| - 1], gs[..|gs| - 1], w, start);
    }
  }

  /** A request is turned away only when ten grants share its window. */
  lemma LimitedIsCrowded(sec: Sessions, time: nat, l: Ledger)
    requires sec.Valid() && sec.history.track.clock <= time && Books(l, sec.history)
    requires Limited(sec.attempts, sec.rateTime, time % TWO_32)
    ensures Crowded(l.granted, time)
  {
    hide SessionOk, CountWindow, Sharing;
    var h := sec.history.track;
    var w := |h.starts| - 1;
    ElapsedAtMost(time, h.starts[w]);
    assert forall i :: 0 <= i < |h.grants| && h.grants[i].window == w ==> InWindow(h.starts, h.grants[i]);
    SharedWindow(l.granted, h.grants, w, h.starts[w]);
    assert Sharing(l.granted, h.starts[w]) >= PER_WINDOW;
  }

  /** One authentication request, and what goes into the ledger. */
  method Ask(sec: Sessions, policy: Policy, p: bytes, random: Option<Block>, time: nat, device: Device4, l: Ledger)
    returns (m: Ledger, reply: bytes)
    requires sec.Valid() && sec.history.track.clock <= time && Books(l, sec.history)
    modifies sec, sec.aes`failures
    ensures sec.Valid() && sec.history.track.clock <= time && Books(m, sec.history)
    ensures m.granted == l.granted +
      if Enabled(policy) && p == [0] && reply != AuthReply(STATUS_LIMITED) then [time] else []
    ensures m.verifications >= l.verifications +
      if p != [0] && 3 <= |reply| && (reply[2] == STATUS_OK || reply[2] == STATUS_WRONG) then 1 else 0
    ensures m.challenges == l.challenges + if p == [0] && |reply| == 23 then 1 else 0
    ensures reply == AuthReply(STATUS_LIMITED) ==> Crowded(l.granted, time)
    ensures |reply| != 19 && sec.authenticated ==> old(sec.authenticated) && sec.nonces == old(sec.nonces)
  {
    hide Crowded;
    hide Limiter, SessionOk, ClientProof, SessionKey, SessionId, ServerProof;
    var now := time % TWO_32;
    var limited := Limited(sec.attempts, sec.rateTime, now);
    var verifies := Verifies(policy, p, limited, sec.pending, sec.phase, now);
    if limited {
      LimitedIsCrowded(sec, time, l);
    }
    reply := sec.Auth(policy, p, now, device, random, time);
    var granted := Enabled(policy) && p == [0] && reply != AuthReply(STATUS_LIMITED);
    m := Ledger(if granted then l.granted + [time] else l.granted,
                if granted && random.Some? then l.challenges + 1 else l.challenges,
                if verifies then l.verifications + 1 else l.verifications);
  }

  /** Any other call, and the sealed frame if it sends one. */
  method Carry(sec: Sessions, e: Event, now: nat) returns (reply: bytes)
    requires sec.Valid() && !e.call.Authenticate? && now < TWO_32
    modifies sec, sec.aes`failures
    ensures sec.Valid() && sec.history == old(sec.history) && Moves(old(sec.Now()), sec.Now(), e, reply)
    ensures reply == [] || |reply| >= 31
  {
    hide Limiter, SessionOk, Wire, Unwire;
    reply := [];
    match e.call {
      case Receive(frame) =>
        var buffer := new byte[|frame|](i requires 0 <= i < |frame| => frame[i]);
        var r := sec.Decrypt(buffer, |frame|);
      case Transmit(plain) =>
        reply := Send(sec, plain);
      case Expire =>
        var expired := sec.Expire(e.policy, now);
      case Reset =>
        sec.Reset();
    }
  }

  /** The frame a transmission puts on the air. */
  method Send(sec: Sessions, plain: bytes) returns (frame: bytes)
    requires sec.Valid()
    modifies sec`phase, sec`nonces, sec.aes`failures
    ensures sec.Valid() && old(sec.nonces) <= sec.nonces
    ensures frame != [] ==>
      && |frame| >= 31 && old(sec.authenticated) && sec.nonces == old(sec.nonces) + [FrameNonce(frame)]
      && FrameNonce(frame) !in old(sec.nonces) && Be(FrameNonce(frame)[5..]) >= TWO_63
  {
    hide Limiter, SessionOk, Wire, Unwire, NonceOf, Be;
    var buffer := new byte[244];
    ghost var tx := if sec.phase.Session? then sec.phase.tx else 0;
    Counter(sec);
    var count := sec.Encrypt(plain, buffer, 244);
    frame := [];
    if count.Some? {
      frame := buffer[..count.value];
      WireUnwires(sec.aes.cipher, sec.key, sec.id, tx, plain);
      LastIsNew(sec);
    }
  }

  lemma Counter(sec: Sessions)
    requires sec.Valid()
    ensures sec.authenticated ==> sec.phase.Session? && sec.phase.tx < TWO_64
  {
    hide Limiter;
  }

  /** The nonce used last is new, and has the top bit. */
  lemma LastIsNew(sec: Sessions)
    requires sec.Valid() && sec.authenticated && sec.nonces != []
    ensures var n := |sec.nonces| - 1; sec.nonces[n] !in sec.nonces[..n] && Be(sec.nonces[n][5..]) >= TWO_63
  {
    hide Limiter, SessionOk, Be;
    NoncesDisjoint(sec.phase, sec.id, sec.accepted, sec.nonces);
  }

  /** The rate limit over time, for any run of monotone calls however the 32-bit clock wraps: an
      observer counts at most twenty granted requests in any 60,000 ms, and never more answers put
      to the test than challenges handed out, nor more of those than granted requests; and no
      request is turned away unless ten grants share its window. And no two frames sealed in one
      session carry the same nonce. */
  method Run(aes: Aes, device: Device4, events: seq<Event>) returns (l: Ledger, replies: seq<bytes>)
    modifies aes`failures
    ensures Observed(l, events, replies)
    ensures forall from: nat :: InMinute(l.granted, from) <= 20
    ensures l.verifications <= l.challenges <= |l.granted|
    ensures DistinctNonces(events, replies)
  {
    hide DistinctNonces, Remembered;
    hide Limiter, SessionOk, CountTimes, CountBetween, CountWindow, Observed, Crowded;
    var sec := new Sessions(aes);
    var time: nat := 0;
    l, replies := Ledger([], 0, 0), [];
    NothingObserved(sec.Now());
    for i := 0 to |events|
      invariant fresh(sec) && sec.aes == aes && sec.Valid()
      invariant sec.history.track.clock <= time == Time(events[..i]) && Books(l, sec.history)
      invariant Observed(l, events[..i], replies)
      invariant DistinctNonces(events[..i], replies) && Remembered(sec.Now(), events[..i], replies)
    {
      var e := events[i];
      assert events[..i + 1] == events[..i] + [e] && events[..i + 1][..i] == events[..i];
      ghost var before, b := l, sec.Now();
      var reply := [];
      time := time + e.delay;
      match e.call {
        case Authenticate(p, random) =>
          l, reply := Ask(sec, e.policy, p, random, time, device, l);
        case _ =>
          reply := Carry(sec, e, time % TWO_32);
      }
      NoncesNext(b, sec.Now(), events[..i], replies, e, reply);
      ObservedNext(before, l, events[..i], replies, e, reply);
      replies := replies + [reply];
    }
    assert events[..|events|] == events;
    forall from: nat
      ensures InMinute(l.granted, from) <= 20
    {
      sec.RunsAreLimited(from);
      CountsAgree(l.granted, sec.history.track.grants, from, from + WINDOW);
    }
  }
}
