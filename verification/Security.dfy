/** The session layer of src/security.c: challenge and proof, the replay window, directional
    nonces and the storage the handshake and the session share. */
module Security {
  import opened Bytes
  import opened BlockModes
  import opened Crypto
  import opened RateLimit
  import opened Replay

  /** The union: handshake scratch or session state, or neither after a wipe. */
  datatype Phase =
    | Wiped
    | Handshake(challenge: Block, begun: nat)
    | Session(window: Window, tx: nat, started: nat)

  const TX_BASE := TWO_63

  // ----- what the handshake computes -----

  const LABEL: bytes := [79, 112, 101, 110, 68, 105, 115, 112, 108, 97, 121, 32, 115, 101, 115, 115, 105, 111, 110, 0]

  /** A device identity. */
  type Device4 = s: bytes | |s| == 4 witness Zeros(4)

  function ClientProof(e: Cipher, master: Block, server: Block, client: Block, device: Device4): Block {
    Cmac(e, master, server + client + device)
  }

  /** The block the session key is encrypted from: the counter 1 and half of the derived material. */
  function KeyBlock(material: Block): Block {
    KEY_COUNTER + material[..8]
  }

  const KEY_COUNTER: bytes := [0, 0, 0, 0, 0, 0, 0, 1]

  /** What the derivation authenticates: label, device, both challenges, length. */
  function KeyMaterial(server: Block, client: Block, device: Device4): bytes {
    LABEL + device + client + server + [0, 0x80]
  }

  function SessionKey(e: Cipher, master: Block, server: Block, client: Block, device: Device4): Block {
    e(master, KeyBlock(Cmac(e, master, KeyMaterial(server, client, device))))
  }

  function SessionId(e: Cipher, session: Block, server: Block, client: Block): bytes {
    Cmac(e, session, client + server)[..8]
  }

  function ServerProof(e: Cipher, session: Block, server: Block, client: Block, device: Device4): Block {
    Cmac(e, session, server + client + device)
  }

  /** The derivation byte by byte: 58 bytes are authenticated, the label in letters and a zero, the
      device, the client's and the server's challenge, and the length 128 in bits. */
  lemma MaterialBytes(server: Block, client: Block, device: Device4)
    ensures var m := KeyMaterial(server, client, device);
            && |m| == 58 && (forall i :: 0 <= i < 19 ==> Val(m[i]) == "OpenDisplay session"[i] as int) && m[19] == 0
            && m[20..24] == device && m[24..40] == client && m[40..56] == server && 256 * Val(m[56]) + Val(m[57]) == 128
  {
    LabelLetters();
  }

  lemma LabelLetters()
    ensures |LABEL| == 20 && LABEL[19] == 0
    ensures forall i :: 0 <= i < 19 ==> Val(LABEL[i]) == "OpenDisplay session"[i] as int
  {
    LetterCodes();
    var s := "OpenDisplay session";
    assert LABEL[..4] == [79, 112, 101, 110] && s[..4] == "Open";
    assert LABEL[4..11] == [68, 105, 115, 112, 108, 97, 121] && s[4..11] == "Display";
    assert LABEL[11..19] == [32, 115, 101, 115, 115, 105, 111, 110] && s[11..19] == " session";
  }

  lemma LetterCodes()
    ensures Val(79) == 'O' as int && Val(112) == 'p' as int && Val(101) == 'e' as int && Val(110) == 'n' as int
    ensures Val(68) == 'D' as int && Val(105) == 'i' as int && Val(115) == 's' as int && Val(108) == 'l' as int
    ensures Val(97) == 'a' as int && Val(121) == 'y' as int && Val(32) == ' ' as int && Val(111) == 'o' as int
  {
  }

  /** The session key is the encryption, under the master key, of the number 1 in eight bytes and the
      first half of their CMAC; the session's name is half the CMAC of the client's and then the
      server's challenge under that key; and both proofs are the CMAC of the server's challenge, the
      client's and the device, the client's under the master key and the server's under the new one. */
  lemma DerivationBytes(e: Cipher, master: Block, server: Block, client: Block, device: Device4)
    ensures var half := Cmac(e, master, KeyMaterial(server, client, device))[..8];
            var key := e(master, [0, 0, 0, 0, 0, 0, 0, 1] + half);
            && SessionKey(e, master, server, client, device) == key
            && SessionId(e, key, server, client) == Cmac(e, key, client + server)[..8]
            && ClientProof(e, master, server, client, device) == Cmac(e, master, server + client + device)
            && ServerProof(e, key, server, client, device) == Cmac(e, key, server + client + device)
  {
    hide Cmac;
  }

  /** The answers to an authentication request, and a policy's switch and lifetime in seconds. */
  lemma StatusBytes(c: Policy)
    ensures AuthReply(STATUS_OK) == [0x00, 0x50, 0] && AuthReply(STATUS_WRONG) == [0x00, 0x50, 1]
    ensures AuthReply(STATUS_DISABLED) == [0x00, 0x50, 3] && AuthReply(STATUS_LIMITED) == [0x00, 0x50, 4]
    ensures AuthReply(STATUS_ERROR) == [0x00, 0x50, 0xff]
    ensures c.Some? ==> (Enabled(c) <==> c.value[0] == 1) && Lifetime(c) == 1000 * Le(c.value[17..19])
    ensures c.None? ==> !Enabled(c) && Lifetime(c) == 0
  {
    hide Le, Val;
    if c.Some? {
      assert c.value[17..19] == [c.value[17], c.value[18]];
      Digits(c.value[17], c.value[18], 0, 0);
    }
  }

  // ----- frames -----

  /** The 13-byte nonce: five bytes of session id and the 64-bit counter. */
  function NonceOf(id: bytes, counter: nat): Nonce
    requires |id| == 8
  {
    id[3..] + BeBytes(counter, 8)
  }

  /** The encrypted frame for a plain command: header, id, counter, sealed length and payload. */
  function Wire(e: Cipher, key: Block, id: bytes, counter: nat, plain: bytes): (w: bytes)
    requires |id| == 8 && 2 <= |plain| <= 215
    ensures |w| == |plain| + 29
  {
    plain[..2] + id + BeBytes(counter, 8)
    + Seal(e, key, NonceOf(id, counter), plain[..2], [ToByte(|plain| - 2)] + plain[2..])
  }

  function FrameNonce(frame: bytes): Nonce
    requires |frame| >= 18
  {
    frame[5..18]
  }

  function FrameCounter(frame: bytes): nat
    requires |frame| >= 18
  {
    Be(frame[10..18])
  }

  /** What a frame decrypts to under a key, if its tag and its inner length are right. */
  function Unwire(e: Cipher, key: Block, frame: bytes): Option<bytes>
    requires 31 <= |frame| <= 244
  {
    match Open(e, key, FrameNonce(frame), frame[..2], frame[18..])
    case Opened(data) => if Val(data[0]) == |frame| - 31 then Some(frame[..2] + data[1..]) else None
    case Rejected => None
  }

  /** Distinct counters give distinct nonces. */
  lemma NonceInjective(id: bytes, c: nat, d: nat)
    requires |id| == 8 && c < TWO_64 && d < TWO_64 && NonceOf(id, c) == NonceOf(id, d)
    ensures c == d
  {
    hide BeBytes, Be;
    Pow256Values();
    assert NonceOf(id, c)[5..] == BeBytes(c, 8) && NonceOf(id, d)[5..] == BeBytes(d, 8);
    BeOfBeBytes(c, 8);
    BeOfBeBytes(d, 8);
  }

  /** Every frame a peer seals decrypts to the command it carries, under the nonce of its counter. */
  lemma WireUnwires(e: Cipher, key: Block, id: bytes, counter: nat, plain: bytes)
    requires |id| == 8 && 2 <= |plain| <= 215 && counter < TWO_64
    ensures var w := Wire(e, key, id, counter, plain);
            w[2..10] == id && FrameCounter(w) == counter && FrameNonce(w) == NonceOf(id, counter)
            && Unwire(e, key, w) == Some(plain)
    // byte by byte: header, session, counter with the most significant byte first, sealed length and rest
    ensures var w := Wire(e, key, id, counter, plain);
            && |w| == |plain| + 29 && w[..2] == plain[..2] && Be(w[10..18]) == counter
            && w[18..] == Seal(e, key, id[3..8] + w[10..18], plain[..2], [ToByte(|plain| - 2)] + plain[2..])
  {
    hide Seal, Open, BeBytes, Be, ToByte, Val;
    Pow256Values();
    BeOfBeBytes(counter, 8);
    var w, inner := Wire(e, key, id, counter, plain), [ToByte(|plain| - 2)] + plain[2..];
    assert w[..2] == plain[..2] && w[10..18] == BeBytes(counter, 8);
    assert w[5..10] == id[3..] && w[5..18] == w[5..10] + w[10..18];
    assert id[3..8] == id[3..];
    assert w[18..] == Seal(e, key, NonceOf(id, counter), plain[..2], inner);
    OpenIffSealed(e, key, NonceOf(id, counter), plain[..2], w[18..], inner);
    assert plain == plain[..2] + plain[2..] && inner[1..] == plain[2..];
  }

  // ----- the session object -----

  /** The security packet's payload in the configuration in force, if there is one. */
  type Policy = c: Option<bytes> | c.Some? ==> |c.value| == 64 witness None

  predicate Enabled(c: Policy) {
    c.Some? && c.value[0] == 1
  }

  /** The absolute session lifetime in milliseconds, 0 for none. */
  function Lifetime(c: Policy): nat {
    if c.Some? then (Val(c.value[17]) + TWO_8 * Val(c.value[18])) * 1000 else 0
  }

  const STATUS_OK: byte := 0
  const STATUS_WRONG: byte := 1
  const STATUS_DISABLED: byte := 3
  const STATUS_LIMITED: byte := 4
  const STATUS_ERROR: byte := 255

  function AuthReply(status: byte): bytes {
    [0 as byte, 0x50, status]
  }

  datatype Decrypted = Frame(size: nat) | NotAuthorized | Already | BadMessage

  /** Counts over true time that the limiter's claims are about. */
  datatype Track = Track(starts: seq<nat>, grants: seq<Grant>, clock: nat)

  function LastWindow(t: Track): nat {
    if t.starts == [] then 0 else |t.starts| - 1
  }

  datatype History = History(track: Track, challenges: nat, verifications: nat)

  /** The limiter turns a request away. */
  predicate Limited(attempts: nat, rateTime: nat, now: nat) {
    attempts >= PER_WINDOW && Elapsed(now, rateTime) < WINDOW
  }

  /** A challenge request the limiter lets through. */
  predicate Granted(policy: Policy, p: bytes, limited: bool) {
    Enabled(policy) && !limited && p == [0]
  }

  /** A timely answer to the pending challenge. */
  predicate Verifies(policy: Policy, p: bytes, limited: bool, pending: bool, phase: Phase, now: nat)
    requires pending ==> phase.Handshake?
  {
    Enabled(policy) && !limited && p != [0] && pending && |p| == 32 && Elapsed(now, phase.begun) < 30000
  }

  /** A session that has outlived the policy. */
  predicate Outlived(policy: Policy, authenticated: bool, phase: Phase, now: nat)
    requires authenticated ==> phase.Session?
  {
    authenticated && Lifetime(policy) != 0 && Elapsed(now, phase.started) >= Lifetime(policy)
  }

  /** The fields of the session layer, and its history. */
  datatype SessionShot = SessionShot(key: Block, id: bytes, phase: Phase, rateTime: nat, attempts: nat,
                                     authenticated: bool, pending: bool, accepted: set<nat>, nonces: seq<Nonce>,
                                     history: History)

  /** The limiter's two RAM fields against the history. */
  ghost predicate Limiter(h: Track, rateTime: nat, attempts: nat) {
    && Disciplined(h.starts, h.grants)
    && rateTime == h.starts[|h.starts| - 1] % TWO_32 && h.starts[|h.starts| - 1] <= h.clock
    && attempts == CountWindow(h.grants, |h.starts| - 1)
    && forall i :: 0 <= i < |h.grants| && h.grants[i].window == |h.starts| - 1 ==>
         h.grants[i].time <= h.clock && (h.grants[i].time - h.starts[|h.starts| - 1]) % TWO_32 < WINDOW
  }

  /** Which counter the replay test lets through. */
  ghost predicate Unseen(accepted: set<nat>, counter: nat) {
    counter !in accepted && forall c :: c in accepted ==> c < counter + 32
  }

  /** The session state: a window over the accepted counters, and one nonce per transmission. */
  ghost predicate SessionOk(phase: Phase, id: bytes, accepted: set<nat>, nonces: seq<Nonce>)
    requires |id| == 8
  {
    && phase.Session?
    && Represents(phase.window, accepted)
    && (forall c :: c in accepted ==> c < TWO_63)
    && phase.tx == TX_BASE + |nonces| < TWO_64
    && forall i :: 0 <= i < |nonces| ==> nonces[i] == NonceOf(id, TX_BASE + i)
  }

  /** All nonces of a session's transmissions are distinct, carry the top counter bit, and none
      is the nonce of an accepted frame. */
  lemma NoncesDisjoint(phase: Phase, id: bytes, accepted: set<nat>, nonces: seq<Nonce>)
    requires |id| == 8 && SessionOk(phase, id, accepted, nonces)
    ensures forall i, j :: 0 <= i < j < |nonces| ==> nonces[i] != nonces[j]
    ensures forall i, c :: 0 <= i < |nonces| && c in accepted ==> nonces[i] != NonceOf(id, c)
    ensures forall i :: 0 <= i < |nonces| ==> Be(nonces[i][5..]) >= TWO_63
  {
    hide NonceOf;
    forall i | 0 <= i < |nonces|
      ensures Be(nonces[i][5..]) >= TWO_63
    {
      NonceCounter(id, TX_BASE + i);
    }
    forall i, j | 0 <= i < j < |nonces|
      ensures nonces[i] != nonces[j]
    {
      if nonces[i] == nonces[j] {
        NonceInjective(id, TX_BASE + i, TX_BASE + j);
      }
    }
    forall i, c | 0 <= i < |nonces| && c in accepted
      ensures nonces[i] != NonceOf(id, c)
    {
      if nonces[i] == NonceOf(id, c) {
        NonceInjective(id, TX_BASE + i, c);
      }
    }
  }

  lemma NonceCounter(id: bytes, c: nat)
    requires |id| == 8 && c < TWO_64
    ensures Be(NonceOf(id, c)[5..]) == c
  {
    hide Be, BeBytes;
    Pow256Values();
    assert NonceOf(id, c)[5..] == BeBytes(c, 8);
    BeOfBeBytes(c, 8);
  }

  /** A new window opens a full minute after the last one opened, in true time. */
  lemma RollLimiter(h: Track, rateTime: nat, attempts: nat, time: nat)
    requires Limiter(h, rateTime, attempts) && h.clock <= time
    requires Elapsed(time % TWO_32, rateTime) >= WINDOW
    ensures Limiter(h.(starts := h.starts + [time], clock := time), time % TWO_32, 0)
  {
    hide CountWindow;
    var start := h.starts[|h.starts| - 1];
    ElapsedAtMost(time, start);
    forall i | 0 <= i < |h.grants| && h.grants[i].window == |h.starts| - 1
      ensures h.grants[i].time < time
    {
      assert (h.grants[i].time - start) % TWO_32 < WINDOW;
    }
    OpenWindow(h.starts, h.grants, time);
    forall i | 0 <= i < |h.grants|
      ensures h.grants[i].window != |h.starts|
    {
      assert InWindow(h.starts, h.grants[i]);
    }
  }

  lemma LaterLimiter(h: Track, rateTime: nat, attempts: nat, time: nat)
    requires Limiter(h, rateTime, attempts) && h.clock <= time
    ensures Limiter(h.(clock := time), rateTime, attempts)
  {
    hide CountWindow, Disciplined;
  }

  /** A grant inside the current window. */
  lemma GrantLimiter(h: Track, rateTime: nat, attempts: nat)
    requires Limiter(h, rateTime, attempts) && attempts < PER_WINDOW
    requires Elapsed(h.clock % TWO_32, rateTime) < WINDOW
    ensures |h.starts| > 0 && Limiter(h.(grants := h.grants + [Grant(h.clock, LastWindow(h))]), rateTime, attempts + 1)
  {
    hide CountWindow;
    ElapsedAtMost(h.clock, h.starts[|h.starts| - 1]);
    AddGrant(h.starts, h.grants, h.clock);
  }

  lemma FreshSession(now: nat, id: bytes)
    requires |id| == 8
    ensures SessionOk(Session(FRESH, TX_BASE, now), id, {}, [])
  {
  }

  /** Nothing of a handshake or a session is left. */
  ghost predicate Cleared(s: SessionShot) {
    && !s.authenticated && !s.pending && s.phase == Wiped && s.key == Zeros(16) && s.id == Zeros(8)
    && s.accepted == {} && s.nonces == []
  }

  /** od_security_reset on the fields. */
  function Emptied(s: SessionShot): (w: SessionShot)
    ensures Cleared(w) && w.history == s.history && w.rateTime == s.rateTime && w.attempts == s.attempts
  {
    s.(key := Zeros(16), id := Zeros(8), phase := Wiped, authenticated := false, pending := false,
    accepted := {}, nonces := [])
  }

  /** Everything an authentication request does, from the state before it; intact says that no AES
      call failed. */
  ghost predicate AuthDone(cipher: Cipher, b: SessionShot, a: SessionShot, policy: Policy, p: bytes, now: nat,
                           device: Device4, random: Option<Block>, time: nat, reply: bytes, intact: bool)
    requires b.pending ==> b.phase.Handshake?
  {
    var limited := Limited(b.attempts, b.rateTime, now);
    var granted, verifies := Granted(policy, p, limited), Verifies(policy, p, limited, b.pending, b.phase, now);
    // what the call adds to the history: its grant, its challenge, its verification
    && a.history.track.clock <= time
    && a.history.track.grants ==
         b.history.track.grants + (if granted then [Grant(time, LastWindow(a.history.track))] else [])
    && a.history.challenges == b.history.challenges + (if granted && random.Some? then 1 else 0)
    && a.history.verifications == b.history.verifications + (if verifies then 1 else 0)
    && if !Enabled(policy) then
         reply == AuthReply(STATUS_DISABLED) && a == b
       else
         var rolled := Elapsed(now, b.rateTime) >= WINDOW;
         && a.rateTime == (if rolled then now else b.rateTime)
         && a.attempts == (if rolled then 0 else b.attempts) + (if granted then 1 else 0)
         && if limited then
              reply == AuthReply(STATUS_LIMITED) && a == b.(history := a.history)
            else if granted then
              // a challenge request starts a handshake and ends any session
              !a.authenticated && a.pending == random.Some?
              && match random
                 case Some(challenge) =>
                   a.phase == Handshake(challenge, now) && reply == AuthReply(STATUS_OK) + challenge + device
                 case None => Cleared(a) && reply == AuthReply(STATUS_ERROR)
            else
              // anything else uses the pending challenge up
              !a.pending
              && if verifies then
                   Proven(cipher, a, policy.value[1..17], b.phase.challenge, p[..16], p[16..], now, device, reply,
                          intact)
                 else
                   reply == AuthReply(STATUS_ERROR) && a.authenticated == b.authenticated && a.phase == b.phase
                   && a.key == b.key && a.id == b.id && a.accepted == b.accepted && a.nonces == b.nonces
  }

  /** The outcome of a timely answer: a session exactly on the right proof and with AES intact, and
      otherwise nothing is left. */
  ghost predicate Proven(cipher: Cipher, a: SessionShot, master: Block, server: Block, client: Block, proof: Block,
                         now: nat, device: Device4, reply: bytes, intact: bool)
  {
    var session := SessionKey(cipher, master, server, client, device);
    var right := proof == ClientProof(cipher, master, server, client, device);
    && !a.pending
    && (a.authenticated <==> right && intact)
    && (a.authenticated ==>
          && a.key == session && a.id == SessionId(cipher, session, server, client)
          && a.phase == Session(FRESH, TX_BASE, now) && a.accepted == {} && a.nonces == []
          && reply == AuthReply(STATUS_OK) + ServerProof(cipher, session, server, client, device))
    && (!a.authenticated ==>
          && Cleared(a)
          && (reply == AuthReply(STATUS_WRONG) || (right && reply == AuthReply(STATUS_ERROR))))
  }

  /** The frame is addressed to this session with a receive counter. */
  predicate Addressed(s: SessionShot, frame: bytes) {
    s.authenticated && 31 <= |frame| <= 244 && frame[2..10] == s.id && FrameCounter(frame) < TWO_63
  }

  class Sessions {
    const aes: Aes
    var key: Block
    var id: bytes
    var phase: Phase
    var rateTime: nat
    var attempts: nat
    var authenticated: bool
    var pending: bool
    /** Receive counters accepted in the current session. */
    ghost var accepted: set<nat>
    /** Nonces encrypted under in the current session, oldest first. */
    ghost var nonces: seq<Nonce>
    ghost var history: History

    /** The phase storage belongs to at most one user, and each flag names the user it belongs to. */
    ghost predicate Valid()
      reads this
    {
      && |id| == 8
      && !(pending && authenticated)
      && (pending ==> phase.Handshake?)
      && (authenticated ==> SessionOk(phase, id, accepted, nonces))
      && Limiter(history.track, rateTime, attempts)
      && history.verifications + (if pending then 1 else 0) <= history.challenges <= |history.track.grants|
    }

    constructor (aes: Aes)
      ensures Valid() && this.aes == aes && Cleared(Now())
      ensures history == History(Track([0], [], 0), 0, 0)
    {
      this.aes := aes;
      key, id, phase := Zeros(16), Zeros(8), Wiped;
      rateTime, attempts, authenticated, pending := 0, 0, false, false;
      accepted, nonces, history := {}, [], History(Track([0], [], 0), 0, 0);
    }

    /** od_security_reset: everything but the rate limiter. */
    method Reset()
      requires Valid()
      modifies this
      ensures Valid() && Now() == Emptied(old(Now()))
      ensures key == Zeros(16) && id == Zeros(8) && phase == Wiped && !authenticated && !pending
      ensures rateTime == old(rateTime) && attempts == old(attempts)
    {
      hide Limiter, SessionOk;
      key, id, phase, authenticated, pending := Zeros(16), Zeros(8), Wiped, false, false;
      accepted, nonces := {}, [];
    }

    /** od_security_expire: an absolute lifetime counted from authentication, whatever traffic. */
    method Expire(policy: Policy, now: nat) returns (expired: bool)
      requires Valid() && now < TWO_32
      modifies this
      ensures Valid() && (expired <==> Outlived(policy, old(authenticated), old(phase), now))
      ensures Now() == if expired then Emptied(old(Now())) else old(Now())
    {
      var timeout := Lifetime(policy);
      expired := authenticated && timeout != 0 && Elapsed(now, phase.started) >= timeout;
      if expired {
        Reset();
      }
    }

    /** The window of the limiter moves on when 60 s have passed, as the 32-bit clock sees it. */
    method RollWindow(now: nat, ghost time: nat)
      requires Valid() && now == time % TWO_32 && history.track.clock <= time
      modifies this`rateTime, this`attempts, this`history
      ensures Valid() && history.track.clock == time && Elapsed(now, rateTime) < WINDOW
      ensures history.track.grants == old(history.track.grants)
      ensures history.challenges == old(history.challenges) && history.verifications == old(history.verifications)
      ensures attempts == if Elapsed(now, old(rateTime)) >= WINDOW then 0 else old(attempts)
      ensures rateTime == if Elapsed(now, old(rateTime)) >= WINDOW then now else old(rateTime)
    {
      hide Limiter, SessionOk;
      if Elapsed(now, rateTime) >= WINDOW {
        RollLimiter(history.track, rateTime, attempts, time);
        attempts, rateTime := 0, now;
        history := history.(track := Track(history.track.starts + [time], history.track.grants, time));
      } else {
        LaterLimiter(history.track, rateTime, attempts, time);
        history := history.(track := history.track.(clock := time));
      }
    }

    ghost function Now(): SessionShot
      reads this
    {
      SessionShot(key, id, phase, rateTime, attempts, authenticated, pending, accepted, nonces, history)
    }

    /** od_security_auth up to the proof: policy, limiter, challenge request, stale or unexpected
        proofs. A challenge is consumed by the first well-timed answer, right or wrong. */
    method Auth(policy: Policy, p: bytes, now: nat, device: Device4, random: Option<Block>, ghost time: nat)
      returns (reply: bytes)
      requires Valid() && now == time % TWO_32 && history.track.clock <= time
      modifies this, aes`failures
      ensures Valid()
      ensures AuthDone(aes.cipher, old(Now()), Now(), policy, p, now, device, random, time, reply,
                       aes.failures == old(aes.failures))
    {
      hide Limiter, SessionOk, Cmac, ClientProof, SessionKey, SessionId, ServerProof;
      if !Enabled(policy) {
        return AuthReply(STATUS_DISABLED);
      }
      RollWindow(now, time);
      if attempts >= 10 {
        return AuthReply(STATUS_LIMITED);
      }
      if p == [0] {
        reply := Challenge(now, device, random);
        return;
      }
      if |p| != 32 || !pending || Elapsed(now, phase.begun) >= 30000 {
        pending := false;
        return AuthReply(STATUS_ERROR);
      }
      pending := false;
      reply := Prove(policy.value[1..17], phase.challenge, p[..16], p[16..], now, device);
    }

    /** A challenge request the limiter has let through. */
    method Challenge(now: nat, device: Device4, random: Option<Block>) returns (reply: bytes)
      requires Valid() && attempts < PER_WINDOW && now == history.track.clock % TWO_32
          && Elapsed(now, rateTime) < WINDOW
      modifies this
      ensures Valid() && rateTime == old(rateTime) && attempts == old(attempts) + 1
      ensures history.track == old(history.track).(grants :=
        old(history.track.grants) + [Grant(old(history.track.clock), LastWindow(old(history.track)))])
      ensures history.challenges == old(history.challenges) + (if random.Some? then 1 else 0)
      ensures history.verifications == old(history.verifications)
      ensures !authenticated && pending == random.Some?
      ensures match random
              case Some(challenge) =>
                phase == Handshake(challenge, now) && reply == AuthReply(STATUS_OK) + challenge + device
              case None => Cleared(Now()) && reply == AuthReply(STATUS_ERROR)
    {
      hide Limiter, SessionOk;
      GrantLimiter(history.track, rateTime, attempts);
      attempts := attempts + 1;
      history := history.(track := history.track.(grants := history.track.grants
          + [Grant(history.track.clock, LastWindow(history.track))]));
      Reset();
      if random.None? {
        return AuthReply(STATUS_ERROR);
      }
      pending, phase := true, Handshake(random.value, now);
      history := history.(challenges := history.challenges + 1);
      reply := AuthReply(STATUS_OK) + random.value + device;
    }

    /** The proof and the key derivation; every failure on the way wipes the session. */
    method Prove(master: Block, server: Block, client: Block, proof: Block, now: nat,
        device: Device4) returns (reply: bytes)
      requires Valid() && !authenticated && !pending && history.verifications < history.challenges
      modifies this, aes`failures
      ensures Valid() && !pending && rateTime == old(rateTime) && attempts == old(attempts)
      ensures history == old(history).(verifications := old(history).verifications + 1)
      ensures Proven(aes.cipher, Now(), master, server, client, proof, now, device, reply,
                     aes.failures == old(aes.failures))
    {
      hide Limiter, SessionOk, Cmac;
      ghost var before := aes.failures;
      history := history.(verifications := history.verifications + 1);
      var buffer := new byte[16];
      var ok := OdCmac(aes, master, server + client + device, buffer);
      if !ok || buffer[..] != proof {
        Reset();
        return AuthReply(STATUS_WRONG);
      }
      ok := Derive(master, server, client, device);
      if ok {
        ok := OdCmac(aes, key, server + client + device, buffer);
      }
      if !ok {
        Reset();
        return AuthReply(STATUS_ERROR);
      }
      reply := AuthReply(STATUS_OK) + buffer[..];
      phase := Session(FRESH, TX_BASE, now);
      authenticated, accepted, nonces := true, {}, [];
      FreshSession(now, id);
    }

    /** The session key and the session id, from both challenges. */
    method Derive(master: Block, server: Block, client: Block, device: Device4) returns (ok: bool)
      requires Valid() && !authenticated && !pending
      modifies this`key, this`id, aes`failures
      ensures Valid()
      ensures ok <==> aes.failures == old(aes.failures)
      ensures ok ==> key == SessionKey(aes.cipher, master, server, client, device)
                     && id == SessionId(aes.cipher, key, server, client)
    {
      hide Limiter, SessionOk, Cmac, KeyBlock, KeyMaterial;
      var buffer, block := new byte[16], new byte[16];
      ok := OdCmac(aes, master, KeyMaterial(server, client, device), buffer);
      if !ok {
        return;
      }
      var input := KeyBlock(buffer[..]);
      var source := new byte[16](i requires 0 <= i < 16 => input[i]);
      assert source[..] == input;
      ok := aes.Encrypt(master, source, block);
      if !ok {
        return;
      }
      key := block[..];
      ok := OdCmac(aes, key, client + server, buffer);
      if ok {
        id := buffer[..8];
      }
    }

    /** Over any run of calls, resets and clock wraps: at most ten challenge requests are granted
        per window, at most twenty in any 60,000 ms, and no proof is verified without a challenge
        of its own. */
    lemma RunsAreLimited(from: nat)
      requires Valid()
      ensures CountBetween(history.track.grants, from, from + 60000) <= 20
      ensures forall w: nat :: CountWindow(history.track.grants, w) <= PER_WINDOW
      ensures history.verifications <= history.challenges <= |history.track.grants|
    {
      hide CountBetween, CountWindow, SessionOk;
      AtMostTwenty(history.track.starts, history.track.grants, from);
    }

    /** A peer that shares the session and seals a command under a receive counter produces a frame
        that is addressed here and carries exactly that command. */
    lemma PeerFrames(counter: nat, plain: bytes)
      requires Valid() && authenticated && counter < TWO_63 && 2 <= |plain| <= 215
      ensures Addressed(Now(), Wire(aes.cipher, key, id, counter, plain))
      ensures FrameCounter(Wire(aes.cipher, key, id, counter, plain)) == counter
      ensures Unwire(aes.cipher, key, Wire(aes.cipher, key, id, counter, plain)) == Some(plain)
    {
      hide Limiter, SessionOk, Wire, Unwire;
      WireUnwires(aes.cipher, key, id, counter, plain);
    }

    /** od_security_decrypt, in place: a frame is accepted exactly when it is addressed here, its
        counter is new and not 32 or more behind, AES works, and tag and inner length are right;
        any other frame changes no session state. */
    method Decrypt(frame: array<byte>, len: nat) returns (r: Decrypted)
      requires Valid() && len <= frame.Length
      modifies this`phase, this`accepted, frame, aes`failures
      ensures Valid()
      ensures var wire := old(frame[..len]);
              && (r.NotAuthorized? <==> !Addressed(Now(), wire))
              && (r.Already? <==> Addressed(Now(), wire) && !Unseen(old(accepted), FrameCounter(wire)))
              && (r.Frame? <==> Addressed(Now(), wire) && Unseen(old(accepted), FrameCounter(wire))
                                && aes.failures == old(aes.failures) && Unwire(aes.cipher, key, wire).Some?)
              && (r.Frame? ==> r.size == len - 29 && Some(frame[..r.size]) == Unwire(aes.cipher, key, wire)
                               && accepted == old(accepted) + {FrameCounter(wire)}
                               && phase.Session? && old(phase).Session? && phase == old(phase).(window := phase.window))
              && (!r.Frame? ==> phase == old(phase) && accepted == old(accepted))
      ensures len >= 2 ==> frame[..2] == old(frame[..2])
    {
      hide Limiter, Represents, Rejects, Accept, Open, NonceOf, Be;
      if !authenticated || len < 31 || len > 244 || frame[2..10] != id {
        return NotAuthorized;
      }
      ghost var wire := frame[..len];
      assert wire[2..10] == frame[2..10] && wire[10..18] == frame[10..18];
      var counter := ReadBe(frame[10..18]);
      if counter >= TWO_63 {
        return NotAuthorized;
      }
      RejectsExactly(phase.window, accepted, counter);
      if Rejects(phase.window, counter) {
        return Already;
      }
      var ok := OpenFrame(frame, len);
      if !ok {
        return BadMessage;
      }
      AcceptAdds(phase.window, accepted, counter);
      phase, accepted := phase.(window := Accept(phase.window, counter)), accepted + {counter};
      r := Frame(len - 29);
    }

    /** od_security_encrypt: the frame of the next transmit counter, which is used up even when
        AES fails; refused without a session, for a command out of range, without room, or when
        the counter is at its end. */
    method Encrypt(plain: bytes, out: array<byte>, capacity: nat) returns (count: Option<nat>)
      requires Valid() && capacity <= out.Length
      modifies this`phase, this`nonces, out, aes`failures
      ensures Valid()
      ensures var able := authenticated && 2 <= |plain| <= 215 && capacity >= |plain| + 29
                          && old(phase).tx != TWO_64 - 1;
              && (count.Some? <==> able && aes.failures == old(aes.failures))
              && (count.Some? ==> count.value == |plain| + 29
                                  && out[..count.value] == Wire(aes.cipher, key, id, old(phase).tx, plain))
              && (able ==> phase == old(phase).(tx := old(phase).tx + 1)
                           && nonces == old(nonces) + [NonceOf(id, old(phase).tx)])
              && (!able ==> phase == old(phase) && nonces == old(nonces))
    {
      hide Limiter, Represents, NonceOf, Seal, BeBytes, ToByte, Val;
      var len := |plain|;
      if !authenticated || len < 2 || len > 215 || capacity < len + 29 || phase.tx == TWO_64 - 1 {
        return None;
      }
      var counter := phase.tx;
      phase, nonces := phase.(tx := counter + 1), nonces + [NonceOf(id, counter)];
      var ok := SealFrame(plain, counter, out);
      count := if ok then Some(len + 29) else None;
    }

    method SealFrame(plain: bytes, counter: nat, out: array<byte>) returns (ok: bool)
      requires |id| == 8 && 2 <= |plain| <= 215 && |plain| + 29 <= out.Length
      modifies out, aes`failures
      ensures ok <==> aes.failures == old(aes.failures)
      ensures ok ==> out[..|plain| + 29] == Wire(aes.cipher, key, id, counter, plain)
    {
      hide Chain, AuthBlocks, CounterBlock, Xor, Seal, BeBytes, ToByte, Val;
      var len := |plain|;
      var head, inner := LayOut(plain, counter, out);
      assert out[5..18] == head[5..18] == NonceOf(id, counter) && out[..2] == head[..2] == plain[..2];
      ok := OdCcm(aes, key, out[5..18], out[..2], out, 18, len - 1, false);
      if ok {
        assert out[..len + 29] == out[..18] + out[18..18 + (len - 1) + TAG];
      }
    }

    /** Header, session, counter and inner length around the payload. */
    method LayOut(plain: bytes, counter: nat, out: array<byte>) returns (head: bytes, inner: bytes)
      requires |id| == 8 && 2 <= |plain| <= 215 && |plain| + 29 <= out.Length
      modifies out
      ensures head == plain[..2] + id + BeBytes(counter, 8) && inner == [ToByte(|plain| - 2)] + plain[2..]
      ensures out[..18] == head && out[18..18 + (|plain| - 1)] == inner
    {
      hide BeBytes, ToByte, Val;
      var digits := WriteBe(counter);
      inner := [ToByte(|plain| - 2)] + plain[2..];
      head := plain[..2] + id + digits;
      CopyInto(out, 0, head);
      CopyInto(out, 18, inner);
    }

    /** Decrypt the frame body, check its inner length and move the payload into place. */
    method OpenFrame(frame: array<byte>, len: nat) returns (ok: bool)
      requires 31 <= len <= 244 && len <= frame.Length
      modifies frame, aes`failures
      ensures ok <==> aes.failures == old(aes.failures) && Unwire(aes.cipher, key, old(frame[..len])).Some?
      ensures ok ==> Some(frame[..len - 29]) == Unwire(aes.cipher, key, old(frame[..len]))
      ensures frame[..2] == old(frame[..2])
    {
      hide Open, Chain, AuthBlocks, CounterBlock, Xor;
      ghost var wire, n := frame[..len], len - 30;
      assert wire[5..18] == frame[5..18] && wire[..2] == frame[..2] && wire[18..] == frame[18..18 + n + TAG];
      ok := OdCcm(aes, key, frame[5..18], frame[..2], frame, 18, len - 30, true);
      assert frame[..2] == frame[..18][..2] == wire[..18][..2] == wire[..2];
      if !ok {
        return;
      }
      ghost var data := frame[18..18 + n];
      assert frame[..2] == frame[..18][..2] == wire[..2] && data[0] == frame[18];
      assert data[1..] == frame[19..18 + n];
      ok := Unpack(frame, len);
    }

    /** Check the inner length and move the payload behind its command bytes. */
    method Unpack(frame: array<byte>, len: nat) returns (ok: bool)
      requires 31 <= len <= 244 && len <= frame.Length
      modifies frame
      ensures ok <==> Val(old(frame[18])) == len - 31
      ensures ok ==> frame[..len - 29] == old(frame[..2] + frame[19..18 + (len - 30)])
      ensures frame[..2] == old(frame[..2])
    {
      hide Val;
      ok := Val(frame[18]) == len - 31;
      if ok {
        MoveDown(frame, 2, 19, len - 31);
        assert frame[..len - 29] == frame[..2] + frame[2..2 + (len - 31)];
      }
    }
  }

  /** read64: eight bytes, most significant first. */
  method ReadBe(s: bytes) returns (v: nat)
    ensures v == Be(s)
  {
    hide Val;
    v := 0;
    for i := 0 to |s|
      invariant v == Be(s[..i])
    {
      assert s[..i + 1][..i] == s[..i];
      v := TWO_8 * v + Val(s[i]);
    }
    assert s[..|s|] == s;
  }

  /** put64: the eight bytes of a counter, filled from the last to the first. */
  method WriteBe(v: nat) returns (s: bytes)
    ensures s == BeBytes(v, 8)
  {
    hide ToByte;
    s := [];
    var rest: nat := v;
    var i := 8;
    while i > 0
      invariant 0 <= i <= 8 && |s| == 8 - i
      invariant BeBytes(v, 8) == BeBytes(rest, i) + s
    {
      i := i - 1;
      assert BeBytes(rest, i + 1) == BeBytes(rest / TWO_8, i) + [ToByte(rest % TWO_8)];
      assert BeBytes(rest / TWO_8, i) + [ToByte(rest % TWO_8)] + s
          == BeBytes(rest / TWO_8, i) + ([ToByte(rest % TWO_8)] + s);
      s, rest := [ToByte(rest % TWO_8)] + s, rest / TWO_8;
    }
  }

  /** The memmove that puts a decrypted payload behind its two command bytes. */
  method MoveDown(a: array<byte>, dst: nat, src: nat, n: nat)
    requires dst <= src && src + n <= a.Length
    modifies a
    ensures a[dst..dst + n] == old(a[src..src + n])
    ensures a[..dst] == old(a[..dst])
  {
    ghost var was := a[..];
    for i := 0 to n
      invariant a[..dst] == was[..dst]
      invariant a[dst..dst + i] == was[src..src + i]
      invariant a[src + i..] == was[src + i..]
    {
      assert a[src + i] == a[src + i..][0] == was[src + i];
      assert a[src + i + 1..] == a[src + i..][1..];
      a[dst + i] := a[src + i];
      assert a[dst..dst + i + 1] == a[dst..dst + i] + [a[dst + i]];
      assert was[src..src + i + 1] == was[src..src + i] + [was[src + i]];
    }
  }
}
