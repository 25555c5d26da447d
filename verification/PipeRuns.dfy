/** A PIPE sender: any order in which its frames arrive, and what the receiver makes of them. */
module PipeRuns {
  import opened Bytes
  import opened Frames
  import opened PanelIo
  import opened Protocol
  import opened Uploads
  import ConfigStore
  import ProtocolRuns

  /** The transfer holds exactly the first frames of this sender. */
  ghost predicate InOrder(p: Protocol, client: seq<bytes>)
    reads p, p.io
  {
    && p.active && p.pipe && !p.pipeFailed && p.io.state.session.Open?
    && |p.frames| <= |client| && p.frames == client[..|p.frames|]
    && Fed(p.io.state.session) == Flatten(client[..|p.frames|])
  }

  /** A transfer that stays open as it was, but for the frames it takes. */
  ghost predicate Held(p: Protocol, b: Snapshot)
    reads p, p.io
  {
    && p.active && b.active && b.pipe && !b.pipeFailed
    && p.Now() == b.(received := p.received, frames := p.frames, nextSeq := p.nextSeq, pipeFrames := p.pipeFrames,
                     trace := p.io.trace)
  }

  /** The image consists of a first run of this sender's frames, as they are or inflated. */
  ghost predicate SentBy(image: Session, client: seq<bytes>, form: Form) {
    image.Open? && |image.written| == form.size && image.zip.Inflating? == form.zip
    && exists m :: 0 <= m <= |client| && Fed(image) == Flatten(client[..m])
  }

  /** Every refresh since then showed such an image. */
  ghost predicate ShowsInOrder(trace: seq<Event>, from: nat, client: seq<bytes>, form: Form) {
    forall i :: from <= i < |trace| && trace[i].Finished? ==>
      Fold(trace[..i]).Some? && SentBy(Fold(trace[..i]).value.session, client, form)
  }

  /** The acknowledgement of m frames: it names the last of them, and as long as the frame count has
      not wrapped (or is well beyond a wrap) its mask says exactly which others there are. */
  ghost predicate Acknowledges(r: bytes, m: nat) {
    && |r| >= 7 && m > 0 && Val(SackNumber(r)) == (m - 1) % TWO_8
    && (MaskExact(SackBits(r), m) <==> m < TWO_32 || m % TWO_32 > 32)
  }

  lemma WindowNumbers(k: nat, m: nat)
    requires k != m && k <= m + 255 && m <= k + 255
    ensures k % TWO_8 != m % TWO_8
  {
  }

  /** Which frame numbers count as repeats: exactly the last 33 accepted ones, as far as there are so
      many, and those 223 to 255 ahead, which the wrapped number cannot tell from them. */
  lemma RepeatsAre(m: nat, k: nat)
    requires k != m && k <= m + 255 && m <= k + 255
    ensures k < m ==> (Recent(m % TWO_8, m % TWO_32, k % TWO_8) <==> m - k <= 33 && m - k <= m % TWO_32)
    ensures k > m ==> (Recent(m % TWO_8, m % TWO_32, k % TWO_8) <==> k - m >= 223 && TWO_8 - (k - m) <= m % TWO_32)
  {
    assert (m % TWO_8 + TWO_8 - k % TWO_8) % TWO_8 == if k < m then m - k else TWO_8 - (k - m);
  }

  lemma OneMoreInOrder(client: seq<bytes>, m: nat)
    requires m < |client|
    ensures client[..m] + [client[m]] == client[..m + 1]
  {
  }

  /** What the receiver does with frame k. */
  method Receive(p: Protocol, client: seq<bytes>, k: nat) returns (ok: bool, ghost o: Outcome)
    requires p.Valid() && InOrder(p, client) && k < |client| && |client[k]| + 3 <= MAX_FRAME
    requires k <= |p.frames| + 255 && |p.frames| <= k + 255
    modifies p, p.io, p.io.epd, p.config, p.config.flash, p.config.flash.mem
    ensures p.Valid() && FrameDone(old(p.Now()), p.Now(), [ToByte(k % TWO_8)] + client[k], o, ok)
  {
    hide Panel.Valid, Protocol.Inv, FrameDone, Protocol.Settings, ConfigStore.Store.Valid,
        ConfigStore.Store.Effective, InOrder, ToByte;
    var payload := [ToByte(k % TWO_8)] + client[k];
    ghost var b := p.Now();
    assert ([0, 0x81] + payload)[2..] == payload;
    ok := p.Handle([0, 0x81] + payload);
    o :| FrameDone(b, p.Now(), payload, o, ok);
  }

  /** What a frame leaves of an open transfer, and what it shows. */
  lemma Received(p: Protocol, b: Snapshot, client: seq<bytes>, k: nat, o: Outcome, ok: bool)
    requires k < |client| && p.Inv() && FrameDone(b, p.Now(), [ToByte(k % TWO_8)] + client[k], o, ok)
    requires b.active && b.pipe && !b.pipeFailed && b.nextSeq == |b.frames| % TWO_8
    requires |b.frames| <= |client| && b.frames == client[..|b.frames|]
    requires k <= |b.frames| + 255 && |b.frames| <= k + 255
    ensures p.active ==>
      && Held(p, b) && InOrder(p, client) && p.frames != []
      && LastSent(p.io.trace, SackFrame(0, p.nextSeq, p.pipeFrames), ok)
      && |p.frames| == |b.frames| + (if k == |b.frames| then 1 else 0)
    ensures k != |b.frames| ==> OnlyTalk(p.io.trace, b.trace)
    ensures o.Completed? ==>
      k == |b.frames| && SentBy(o.image, client, FormOf(b)) && RefreshShows(p.io.trace, |b.trace|, o.image)
  {
    hide Panel.Valid, FrameFits, Fold, SackFrame, FinishEvents, Flatten, Val, Streamed, Data, ToByte;
    var m, payload := |b.frames|, [ToByte(k % TWO_8)] + client[k];
    assert payload[1..] == client[k];
    if k != m {
      WindowNumbers(k, m);
    } else {
      OneMoreInOrder(client, m);
    }
    match o {
      case Completed(_, image, _) =>
        assert Fed(image) == Flatten(client[..m + 1]);
      case _ =>
    }
  }

  /** Nothing but answers, and perhaps the end of the transfer. */
  ghost predicate OnlyTalk(trace: seq<Event>, from: seq<Event>) {
    from <= trace && forall i :: |from| <= i < |trace| ==> trace[i].Sent? || trace[i].Aborted?
  }

  /** Without completion a frame shows nothing. */
  lemma NothingYet(p: Protocol, b: Snapshot, payload: bytes, o: Outcome, ok: bool)
    requires FrameDone(b, p.Now(), payload, o, ok)
    ensures b.trace <= p.io.trace && (!o.Completed? ==> NoRefresh(p.io.trace, |b.trace|))
  {
    hide SackFrame, FinishEvents, Flatten, RefreshShows, Satisfied, Due;
    match o {
      case Accepted(moved) =>
        MovesNoRefresh(b.trace, moved, [p.io.trace[|p.io.trace| - 1]]);
      case Rejected(_, moved) =>
        MovesNoRefresh(b.trace, moved, p.io.trace[|p.io.trace| - 2..]);
      case _ =>
    }
  }

  /** What the arrival of frame k means. Only the frame that is due is ever taken; whatever else
      arrives, repeats included, writes nothing. While the transfer stays open it still holds exactly
      the sender's first frames, and the answer acknowledges exactly those. It does stay open, or shows
      its image, unless the frame is fatal, something failed, or the stream does not fit. */
  ghost predicate Delivered(p: Protocol, b: Snapshot, client: seq<bytes>, k: nat)
    reads p, p.io
  {
    && b.trace <= p.io.trace
    && (p.active ==>
          && InOrder(p, client) && Held(p, b) && |p.frames| == |b.frames| + (if k == |b.frames| then 1 else 0)
          && p.io.trace != [] && p.io.trace[|p.io.trace| - 1].Sent?
          && Acknowledges(p.io.trace[|p.io.trace| - 1].data, |p.frames|)
          && (!p.compressed ==> MaskExact(SackBits(p.io.trace[|p.io.trace| - 1].data), |p.frames|))
          && (p.compressed ==> p.received == b.received + Swell(p.io.trace, |b.trace|)))
    && (k != |b.frames| ==> OnlyTalk(p.io.trace, b.trace))
    && ShowsInOrder(p.io.trace, |b.trace|, client, FormOf(b))
    && (Fitting(b, client) && !Fatal(k, |b.frames|) && GoodRun(b, p.io.trace) ==>
          if k + 1 == |client| == |b.frames| + 1 && Auto(b)
          then !p.active && OneRefresh(p.io.trace, |b.trace|) && p.displayedEtag == 0
          else p.active && NoRefresh(p.io.trace, |b.trace|))
  }

  /** Frame k of the sender arrives, numbered modulo 256, at most 255 from the frames accepted so far. */
  method Deliver(p: Protocol, client: seq<bytes>, k: nat) returns (ok: bool)
    requires p.Valid() && InOrder(p, client)
    requires k < |client| && k <= |p.frames| + 255 && |p.frames| <= k + 255
    modifies p, p.io, p.io.epd, p.config, p.config.flash, p.config.flash.mem
    ensures p.Valid() && Delivered(p, old(p.Now()), client, k)
  {
    hide Panel.Valid, Protocol.Inv, FrameDone, Protocol.Settings, ConfigStore.Store.Valid,
        ConfigStore.Store.Effective, Flatten, Fed, ToByte, Delivered;
    ghost var b := p.Now();
    Counters(p, client);
    if |client[k]| + 3 > MAX_FRAME {
      ok := p.Handle([0, 0x81, ToByte(k % TWO_8)] + client[k]);
      NeverFits(p, b, client, k);
    } else {
      ghost var o;
      ok, o := Receive(p, client, k);
      Taken(p, b, client, k, o, ok);
    }
    ghost var middle := p.io.trace;
    if !ok {
      ProtocolRuns.Stop(p);
      Stopped(p, b, middle, client, k);
    }
  }

  /** What is true of the arrival before a failure ends the transfer. */
  ghost predicate Unless(b: Snapshot, trace: seq<Event>, client: seq<bytes>, k: nat, ok: bool) {
    && b.trace <= trace
    && (k != |b.frames| ==> OnlyTalk(trace, b.trace))
    && ShowsInOrder(trace, |b.trace|, client, FormOf(b))
    && (Fitting(b, client) && !Fatal(k, |b.frames|) && GoodRun(b, trace) ==> ok)
  }

  lemma NeverFits(p: Protocol, b: Snapshot, client: seq<bytes>, k: nat)
    requires k < |client| && |client[k]| + 3 > MAX_FRAME >= b.pipeFrame && p.io.trace == b.trace
    ensures Unless(b, p.io.trace, client, k, false)
  {
    assert client[k] in client;
  }

  lemma Taken(p: Protocol, b: Snapshot, client: seq<bytes>, k: nat, o: Outcome, ok: bool)
    requires k < |client| && p.Inv() && FrameDone(b, p.Now(), [ToByte(k % TWO_8)] + client[k], o, ok)
    requires b.active && b.pipe && !b.pipeFailed && b.nextSeq == |b.frames| % TWO_8
    requires b.pipeFrames == |b.frames| % TWO_32
    requires !b.compressed ==> b.received == |Flatten(b.frames)| && |b.frames| < TWO_32
    requires |b.frames| <= |client| && b.frames == client[..|b.frames|]
    requires k <= |b.frames| + 255 && |b.frames| <= k + 255
    ensures Unless(b, p.io.trace, client, k, ok) && (ok ==> Delivered(p, b, client, k))
  {
    hide Panel.Valid, Protocol.Inv, FrameDone, Fold, SackFrame, MaskExact, SackNumber, SackBits;
    hide Flatten, Fed, Val, OneRefresh, AllWell, FinishEvents, ToByte, Fatal, Fitting, Swell, RefreshShows;
    Received(p, b, client, k, o, ok);
    NothingYet(p, b, [ToByte(k % TWO_8)] + client[k], o, ok);
    if p.active {
      Acknowledged(p, client);
      TakenIsInflated(p, b, [ToByte(k % TWO_8)] + client[k], o, ok);
    }
    if Fitting(b, client) && !Fatal(k, |b.frames|) && GoodRun(b, p.io.trace) {
      WellMeansOk(p, b, [ToByte(k % TWO_8)] + client[k], o, ok);
      Progress(p, b, client, k, o, ok);
    }
    Shown(p.io.trace, b, client, o);
  }

  lemma Shown(trace: seq<Event>, b: Snapshot, client: seq<bytes>, o: Outcome)
    requires if o.Completed? then SentBy(o.image, client, FormOf(b)) && RefreshShows(trace, |b.trace|, o.image)
             else NoRefresh(trace, |b.trace|)
    ensures ShowsInOrder(trace, |b.trace|, client, FormOf(b))
  {
    hide Fold, SentBy;
  }

  lemma Acknowledged(p: Protocol, client: seq<bytes>)
    requires p.Inv() && InOrder(p, client) && p.frames != []
    ensures Acknowledges(SackFrame(0, p.nextSeq, p.pipeFrames), |p.frames|)
    ensures !p.compressed ==> MaskExact(SackBits(SackFrame(0, p.nextSeq, p.pipeFrames)), |p.frames|)
  {
    hide Panel.Valid, Protocol.Inv, Fold, SackFrame, MaskExact, Flatten, Fed, Val;
    Counters(p, client);
    SackReads(0, p.nextSeq, p.pipeFrames);
    SackDescribes(0, |p.frames|);
  }

  lemma Stopped(p: Protocol, b: Snapshot, middle: seq<Event>, client: seq<bytes>, k: nat)
    requires Unless(b, middle, client, k, false) && !p.active
    requires p.io.trace == middle || p.io.trace == middle + [Aborted]
    ensures Delivered(p, b, client, k)
  {
    hide OneRefresh, NoRefresh, Fatal, Fitting, SentBy, Fold;
    GoodBefore(b, middle, p.io.trace);
    forall i | |b.trace| <= i < |p.io.trace| && p.io.trace[i].Finished?
      ensures Fold(p.io.trace[..i]).Some? && SentBy(Fold(p.io.trace[..i]).value.session, client, FormOf(b))
    {
      assert middle[i].Finished? && p.io.trace[..i] == middle[..i];
    }
  }

  // ----- when nothing fails

  /** A frame number that ends the transfer: neither due nor, as far as its number tells, a repeat. */
  predicate Fatal(k: nat, m: nat) {
    if k < m then m - k > 33 else k > m && (k - m < 223 || TWO_8 - (k - m) > m)
  }

  /** Frames that fit the negotiated size; raw ones make up exactly the image, of a compressed stream
      there are not so many that their count wraps. */
  predicate Fitting(b: Snapshot, client: seq<bytes>) {
    && [] !in client && (forall f :: f in client ==> |f| + 3 <= b.pipeFrame)
    && if b.compressed then |client| < TWO_32 else |Flatten(client)| == b.expected
  }

  /** A raw full image shows itself with its last byte. */
  predicate Auto(b: Snapshot) {
    !b.partial && !b.compressed
  }

  lemma RecentRepeat(m: nat, k: nat)
    requires k != m && k <= m + 255 && m <= k + 255 && m < TWO_32 && !Fatal(k, m)
    ensures k % TWO_8 != m % TWO_8 && Recent(m % TWO_8, m, k % TWO_8)
  {
    hide Recent;
    WindowNumbers(k, m);
    RepeatsAre(m, k);
  }

  lemma Progress(p: Protocol, b: Snapshot, client: seq<bytes>, k: nat, o: Outcome, ok: bool)
    requires b.active && b.pipe && !b.pipeFailed && Fitting(b, client)
    requires |b.frames| <= |client| && (!b.compressed ==> b.received == |Flatten(client[..|b.frames|])|)
    requires b.nextSeq == |b.frames| % TWO_8 && b.pipeFrames == |b.frames| % TWO_32
    requires !b.compressed ==> |b.frames| < TWO_32
    requires k < |client| && k <= |b.frames| + 255 && |b.frames| <= k + 255 && !Fatal(k, |b.frames|)
    requires FrameDone(b, p.Now(), [ToByte(k % TWO_8)] + client[k], o, ok) && GoodRun(b, p.io.trace)
    ensures if k + 1 == |client| == |b.frames| + 1 && Auto(b)
            then !p.active && OneRefresh(p.io.trace, |b.trace|) && p.displayedEtag == 0
            else p.active && NoRefresh(p.io.trace, |b.trace|)
  {
    hide SackFrame, Flatten, RefreshShows, OneRefresh, NoRefresh, FinishEvents, Recent, Fatal, AllWell, ToByte, Swell;
    hide FrameDone;
    var payload, m := [ToByte(k % TWO_8)] + client[k], |b.frames|;
    assert client[k] in client && payload[1..] == client[k];
    NothingYet(p, b, payload, o, ok);
    if k != m {
      RecentRepeat(m, k);
      RepeatStays(p, b, payload, o, ok);
    } else {
      if !b.compressed {
        LastFills(client, m);
      }
      DueGoesThrough(p, b, payload, o, ok);
    }
  }

  /** One more frame still fits, and fills the image exactly when it is the last. */
  lemma LastFills(client: seq<bytes>, m: nat)
    requires m < |client| && [] !in client
    ensures |Flatten(client[..m])| + |client[m]| <= |Flatten(client)|
    ensures |Flatten(client[..m])| + |client[m]| == |Flatten(client)| <==> m + 1 == |client|
  {
    hide Flatten;
    OneMoreInOrder(client, m);
    FlattenSnoc(client[..m], client[m]);
    FlattenSplit(client, m + 1);
    assert m + 1 == |client| ==> client[..m + 1] == client;
  }

  lemma RepeatStays(p: Protocol, b: Snapshot, payload: bytes, o: Outcome, ok: bool)
    requires b.active && b.pipe && !b.pipeFailed && FrameDone(b, p.Now(), payload, o, ok)
    requires FrameFits(b.pipeFrame, payload) && Val(payload[0]) != b.nextSeq
    requires Recent(b.nextSeq, b.pipeFrames, Val(payload[0]))
    ensures p.active && o.Duplicate?
  {
    hide SackFrame, Flatten, RefreshShows, FinishEvents, Recent, Streamed;
  }

  lemma DueIsTaken(p: Protocol, b: Snapshot, payload: bytes, o: Outcome, ok: bool)
    requires b.active && b.pipe && !b.pipeFailed && FrameDone(b, p.Now(), payload, o, ok)
    requires FrameFits(b.pipeFrame, payload) && Val(payload[0]) == b.nextSeq
    requires (!b.compressed ==> b.received + |payload| - 1 <= b.expected) && GoodRun(b, p.io.trace)
    ensures if BringsAll(b, payload) then o.Completed? else o.Accepted?
  {
    hide SackFrame, Flatten, RefreshShows, FinishEvents, Streamed, Data, GoodRun, Recent;
    match o {
      case Rejected(_, moved) =>
        NotRejected(p.io.trace, b, payload[1..], moved, p.io.trace[|b.trace + moved|..]);
      case _ =>
    }
  }

  lemma DueGoesThrough(p: Protocol, b: Snapshot, payload: bytes, o: Outcome, ok: bool)
    requires b.active && b.pipe && !b.pipeFailed && FrameDone(b, p.Now(), payload, o, ok)
    requires FrameFits(b.pipeFrame, payload) && Val(payload[0]) == b.nextSeq
    requires (!b.compressed ==> b.received + |payload| - 1 <= b.expected) && GoodRun(b, p.io.trace)
    ensures if Auto(b) && b.received + |payload| - 1 == b.expected
            then !p.active && OneRefresh(p.io.trace, |b.trace|) && p.displayedEtag == 0
            else p.active && !o.Completed?
  {
    hide FrameDone, OneRefresh, GoodRun, FrameFits;
    DueIsTaken(p, b, payload, o, ok);
    if o.Completed? {
      GoodIsWell(b, p.io.trace);
      CompletedShows(p, b, payload, o, ok);
    } else {
      AcceptedStays(p, b, payload, o, ok);
    }
  }

  lemma AcceptedStays(p: Protocol, b: Snapshot, payload: bytes, o: Outcome, ok: bool)
    requires b.active && FrameDone(b, p.Now(), payload, o, ok) && o.Accepted?
    ensures p.active
  {
    hide SackFrame, Flatten, RefreshShows, FinishEvents, Streamed, Data, Recent;
  }

  lemma CompletedShows(p: Protocol, b: Snapshot, payload: bytes, o: Outcome, ok: bool)
    requires FrameDone(b, p.Now(), payload, o, ok) && o.Completed? && AllWell(p.io.trace, |b.trace|)
    ensures !p.active && OneRefresh(p.io.trace, |b.trace|) && p.displayedEtag == 0
  {
    hide SackFrame, Flatten, RefreshShows, FinishEvents, OneRefresh, Data, AllWell, Recent, Satisfied, Stuck;
    CompletedWell(p.io.trace, b.trace, o.moved, SackFrame(0, (b.nextSeq + 1) % TWO_8, (b.pipeFrames + 1) % TWO_32),
                  o.answers);
  }

  /** Without a failed call a frame reports success. */
  lemma WellMeansOk(p: Protocol, b: Snapshot, payload: bytes, o: Outcome, ok: bool)
    requires FrameDone(b, p.Now(), payload, o, ok) && AllWell(p.io.trace, |b.trace|)
    ensures ok
  {
    hide SackFrame, FinishEvents, Flatten, RefreshShows, Streamed, Data, AllWell, Recent;
    match o {
      case Completed(moved, _, a) =>
        WellAfter(p.io.trace, |b.trace|, |b.trace + moved|);
        FinishWell(p.io.trace, b.trace + moved, true,
                   SackFrame(0, (b.nextSeq + 1) % TWO_8, (b.pipeFrames + 1) % TWO_32), 0x82, 0, 0, a);
      case Rejected(error, moved) =>
        WellAt(p.io.trace, |b.trace|, |p.io.trace| - 2);
      case Ignored =>
      case _ =>
        WellAt(p.io.trace, |b.trace|, |p.io.trace| - 1);
    }
  }

  /** A frame that was taken moved exactly what the inflater yielded. */
  lemma TakenIsInflated(p: Protocol, b: Snapshot, payload: bytes, o: Outcome, ok: bool)
    requires FrameDone(b, p.Now(), payload, o, ok) && p.active && b.active
    ensures b.trace <= p.io.trace && (b.compressed ==> p.received == b.received + Swell(p.io.trace, |b.trace|))
  {
    hide SackFrame, FinishEvents, Flatten, RefreshShows, Satisfied, Stuck, Data, Inflated;
    match o {
      case Duplicate =>
        var answer := p.io.trace[|b.trace|..];
        InflatedSnoc([], answer[0]);
        assert answer == [] + [answer[0]];
      case Accepted(moved) =>
        var answer := p.io.trace[|p.io.trace| - 1];
        assert p.io.trace[|b.trace|..] == moved + [answer];
        InflatedSnoc(moved, answer);
      case Ignored =>
        InflatedSnoc([], Rebooted);
        assert p.io.trace[|b.trace|..] == [];
    }
  }

  lemma CompletedWell(trace: seq<Event>, from: seq<Event>, moved: seq<Event>, sack: bytes, a: Answers)
    requires DataOnly(moved) && trace == from + moved + FinishEvents(true, sack, 0x82, 0, 0, a)
        && AllWell(trace, |from|)
    ensures OneRefresh(trace, |from|)
  {
    FinishWell(trace, from + moved, true, sack, 0x82, 0, 0, a);
    MovesNoRefresh(from, moved, []);
    assert from + moved + [] == from + moved;
    NoneThenOne(from + moved, trace, |from|);
  }

  /** How many frames the receiver holds after these arrivals when nothing fails. An image that shows
      itself when complete (a raw full one) takes nothing after that. */
  function HeldAfter(arrivals: seq<nat>, m: nat, n: nat): nat {
    if arrivals == [] then m
    else HeldAfter(arrivals[1..], if arrivals[0] == m < n then m + 1 else m, n)
  }

  /** None of these arrivals is fatal: each is due, a repeat, held back, or too late to matter. */
  predicate Harmless(arrivals: seq<nat>, m: nat, n: nat, auto: bool) {
    arrivals == [] || (auto && m == n) ||
    var k := arrivals[0];
    && (k < n && k <= m + 255 && m <= k + 255 ==> !Fatal(k, m))
    && Harmless(arrivals[1..], if k == m < n then m + 1 else m, n, auto)
  }

  /** Where an upload stands after m of its n frames when nothing failed. */
  ghost predicate Stands(p: Protocol, from: nat, m: nat, n: nat, auto: bool)
    reads p, p.io
  {
    if auto && m == n then !p.active && OneRefresh(p.io.trace, from) && p.displayedEtag == 0
    else p.active && NoRefresh(p.io.trace, from)
  }

  lemma ShowsJoin(a: nat, t: seq<Event>, u: seq<Event>, client: seq<bytes>, form: Form)
    requires t <= u && ShowsInOrder(t, a, client, form) && ShowsInOrder(u, |t|, client, form)
    ensures ShowsInOrder(u, a, client, form)
  {
    hide Fold, SentBy;
    forall i | a <= i < |u| && u[i].Finished?
      ensures Fold(u[..i]).Some? && SentBy(Fold(u[..i]).value.session, client, form)
    {
      if i < |t| {
        assert u[..i] == t[..i];
        assert t[i].Finished?;
      }
    }
  }

  /** What the counters say about the frames held. */
  lemma Counters(p: Protocol, client: seq<bytes>)
    requires p.Inv() && InOrder(p, client)
    ensures p.nextSeq == |p.frames| % TWO_8 && p.pipeFrames == |p.frames| % TWO_32 && p.pipeFrame <= MAX_FRAME
    ensures !p.compressed ==> p.received == |Flatten(p.frames)| <= p.expected && |p.frames| < TWO_32
  {
    hide Panel.Valid, Flatten;
    FlattenLength(p.frames);
  }

  /** One arrival: a frame the sender holds back never comes, one that comes after the end of the
      transfer is ignored. */
  method Arrive(p: Protocol, client: seq<bytes>, k: nat, count: nat)
    requires p.Valid() && (p.active ==> InOrder(p, client) && count == |p.frames|)
    modifies p, p.io, p.io.epd, p.config, p.config.flash, p.config.flash.mem
    ensures p.Valid() && old(p.io.trace) <= p.io.trace
    ensures p.active ==>
      && old(p.active) && InOrder(p, client) && |p.frames| == (if k == count < |client| then count + 1 else count)
      && Held(p, old(p.Now()))
      && (p.compressed ==> p.received == old(p.received) + Swell(p.io.trace, |old(p.io.trace)|))
    ensures ShowsInOrder(p.io.trace, |old(p.io.trace)|, client, FormOf(old(p.Now())))
    ensures !old(p.active) ==> p.io.trace == old(p.io.trace) && p.displayedEtag == old(p.displayedEtag)
    ensures var b, n, m := old(p.Now()), |client|, if k == count < |client| then count + 1 else count;
            && b.active && Fitting(b, client) && (Auto(b) ==> count < n)
            && (k < n && k <= count + 255 && count <= k + 255 ==> !Fatal(k, count)) && GoodRun(b, p.io.trace) ==>
              Stands(p, |b.trace|, m, n, Auto(b))
  {
    hide Panel.Valid, Protocol.Inv, Protocol.Settings, Effect, Stores, ConfigStore.Store.Valid,
        ConfigStore.Store.Effective;
    hide Flatten, Fed, Fatal, Fitting, GoodRun, OneRefresh, SentBy, Fold, ToByte, Acknowledges, MaskExact, SackBits;
    NothingMoved(p.io.trace, client, FormOf(p.Now()));
    if k < |client| {
      if !p.active {
        Late(p, client[k], k);
      } else if k <= count + 255 && count <= k + 255 {
        var ok := Deliver(p, client, k);
      }
    }
  }

  /** A frame that comes when no transfer is open. */
  method Late(p: Protocol, data: bytes, k: nat)
    requires p.Valid() && !p.active
    modifies p, p.io, p.io.epd, p.config, p.config.flash, p.config.flash.mem
    ensures p.Valid() && !p.active && p.io.trace == old(p.io.trace) && p.displayedEtag == old(p.displayedEtag)
  {
    hide Panel.Valid, Protocol.Inv, Protocol.Settings, Stores, ConfigStore.Store.Valid,
        ConfigStore.Store.Effective, ToByte;
    ghost var b, payload := p.Now(), [ToByte(k % TWO_8)] + data;
    assert ([0, 0x81] + payload)[2..] == payload;
    var ok := p.Handle([0, 0x81] + ([ToByte(k % TWO_8)] + data));
    if |data| + 3 <= MAX_FRAME {
      Unheard(p, b, payload, ok);
    }
    if !ok {
      ProtocolRuns.Stop(p);
      assert b.trace + [] == b.trace;
    }
  }

  lemma Unheard(p: Protocol, b: Snapshot, payload: bytes, ok: bool)
    requires !b.active && Effect(p.sha, b, p.Now(), 0x81, payload, ok)
    ensures p.Now() == b
  {
    hide SackFrame, FinishEvents, Flatten, RefreshShows, Streamed, Data;
    var o :| FrameDone(b, p.Now(), payload, o, ok);
  }

  lemma NothingMoved(trace: seq<Event>, client: seq<bytes>, form: Form)
    ensures ShowsInOrder(trace, |trace|, client, form) && NoRefresh(trace, |trace|) && Swell(trace, |trace|) == 0
  {
    InflatedSnoc([], Rebooted);
    assert trace[|trace|..] == [];
  }

  lemma HeldSelf(p: Protocol, client: seq<bytes>)
    requires InOrder(p, client)
    ensures p.active && |p.frames| <= |client| && Held(p, p.Now())
  {
  }

  /** Exactly once: whatever sequence of frames arrives, lost, repeated and out of order, as long as
      the sender keeps each at most 255 from the frames accepted (others it holds back), the open
      transfer holds exactly a first run of its frames, and so did every image shown. When no arrival
      is fatal, nothing fails and the stream fits, the transfer holds every frame that came in turn,
      and a raw full image is shown, once, as soon as its last frame is there. */
  method Transmit(p: Protocol, client: seq<bytes>, held: nat, arrivals: seq<nat>)
    requires p.Valid() && InOrder(p, client) && held == |p.frames|
    modifies p, p.io, p.io.epd, p.config, p.config.flash, p.config.flash.mem
    ensures p.Valid() && old(p.io.trace) <= p.io.trace
    ensures p.active ==> InOrder(p, client) && |p.frames| >= held && Held(p, old(p.Now()))
    ensures p.active && p.compressed ==> p.received == old(p.received) + Swell(p.io.trace, |old(p.io.trace)|)
    ensures ShowsInOrder(p.io.trace, |old(p.io.trace)|, client, FormOf(old(p.Now())))
    ensures var b, n, m := old(p.Now()), |client|, HeldAfter(arrivals, held, |client|);
            && Fitting(b, client) && (Auto(b) ==> held < n) && Harmless(arrivals, held, n, Auto(b))
            && GoodRun(b, p.io.trace) ==>
              Stands(p, |b.trace|, m, n, Auto(b)) && (p.active ==> |p.frames| == m)
  {
    hide Panel.Valid, Protocol.Inv, Protocol.Settings, ConfigStore.Store.Valid, ConfigStore.Store.Effective;
    hide InOrder, Fold, Flatten, Fed, ShowsInOrder, GoodRun, OneRefresh, NoRefresh, Fatal, Fitting, Swell;
    ghost var b, n := p.Now(), |client|;
    ghost var auto := Auto(b);
    ghost var ready := Fitting(b, client) && (auto ==> held < n) && Harmless(arrivals, held, n, auto);
    NothingMoved(b.trace, client, FormOf(b));
    HeldSelf(p, client);
    var i, count := 0, held;
    assert arrivals[0..] == arrivals;
    while i < |arrivals|
      invariant i <= |arrivals| && held <= count
      invariant p.Valid() && b.trace <= p.io.trace && ShowsInOrder(p.io.trace, |b.trace|, client, FormOf(b))
      invariant p.active ==> InOrder(p, client) && count == |p.frames| && Held(p, b)
      invariant p.active && p.compressed ==> p.received == b.received + Swell(p.io.trace, |b.trace|)
      invariant HeldAfter(arrivals[i..], count, n) == HeldAfter(arrivals, held, n)
      invariant ready && GoodRun(b, p.io.trace) ==>
        count <= n && Harmless(arrivals[i..], count, n, auto) && Stands(p, |b.trace|, count, n, auto)
    {
      var k := arrivals[i];
      assert arrivals[i..][0] == k && arrivals[i..][1..] == arrivals[i + 1..];
      ghost var c := p.Now();
      NothingMoved(c.trace, client, FormOf(b));
      Arrive(p, client, k, count);
      ShowsJoin(|b.trace|, c.trace, p.io.trace, client, FormOf(b));
      SwellJoin(c.trace, p.io.trace, |b.trace|);
      ghost var m := if k == count < n then count + 1 else count;
      GoodBefore(b, c.trace, p.io.trace);
      if c.active {
        FitsOn(b, c, client);
        GoodSplit(b, c, p.io.trace);
        StandsOn(p, b.trace, c.trace, count, m, n, auto);
      }
      i, count := i + 1, if k == count && count < |client| then count + 1 else count;
    }
    assert arrivals[i..] == [];
  }

  /** A transfer that stays open keeps what the sender needs to know. */
  lemma FitsOn(b: Snapshot, c: Snapshot, client: seq<bytes>)
    requires c.pipeFrame == b.pipeFrame && c.expected == b.expected
    requires c.compressed == b.compressed && c.partial == b.partial
    ensures Fitting(c, client) == Fitting(b, client) && Auto(c) == Auto(b)
  {
  }

  lemma StandsOn(p: Protocol, before: seq<Event>, log: seq<Event>, count: nat, m: nat, n: nat, auto: bool)
    requires before <= log <= p.io.trace
    ensures NoRefresh(log, |before|) && Stands(p, |log|, m, n, auto) ==> Stands(p, |before|, m, n, auto)
  {
    hide OneRefresh, NoRefresh, Well;
    if NoRefresh(log, |before|) && Stands(p, |log|, m, n, auto) {
      if auto && m == n {
        NoneThenOne(log, p.io.trace, |before|);
      } else {
        NoneThenNone(log, p.io.trace, |before|);
      }
    }
  }

  // ----- the end, and the whole upload

  /** A full raw image needs no END; anything else needs one that is well formed. */
  predicate EndsWell(b: Snapshot, end: bytes) {
    Auto(b) || EndFits(true, true, b.partial, 0x82, end)
  }

  /** The END of an upload. */
  method Close(p: Protocol, client: seq<bytes>, end: bytes, ghost form: Form) returns (ok: bool)
    requires p.Valid() && (p.active ==> InOrder(p, client) && FormOf(p.Now()) == form)
    modifies p, p.io, p.io.epd, p.config, p.config.flash, p.config.flash.mem
    ensures p.Valid() && !p.active && old(p.io.trace) <= p.io.trace
    ensures ShowsInOrder(p.io.trace, |old(p.io.trace)|, client, form)
    ensures !old(p.active) ==> NoRefresh(p.io.trace, |old(p.io.trace)|) && p.displayedEtag == old(p.displayedEtag)
    ensures var b := old(p.Now());
            b.active && EndFits(true, true, b.partial, 0x82, end)
            && AllThere(b, p.io.trace) && GoodRun(b, p.io.trace) ==>
              OneRefresh(p.io.trace, |b.trace|) && p.displayedEtag == EndEtag(b.newEtag, end)
  {
    hide Panel.Valid, Protocol.Inv, Protocol.Settings, Stores, EndDone, ConfigStore.Store.Valid,
        ConfigStore.Store.Effective;
    hide Fold, Flatten, SackFrame, EndEtag, OneRefresh, GoodRun, AllThere, Fed;
    ghost var b := p.Now();
    NothingMoved(b.trace, client, form);
    assert ([0, 0x82] + end)[2..] == end;
    ok := p.Handle([0, 0x82] + end);
    ghost var middle := p.io.trace;
    if |end| + 2 <= MAX_FRAME {
      ghost var e :| EndDone(b, p.Now(), 0x82, end, e, ok);
      EndShows(p, b, client, end, e, form, ok);
      if EndFits(b.active, b.pipe, b.partial, 0x82, end) && AllThere(b, p.io.trace) && GoodRun(b, p.io.trace) {
        EndWell(b, p.Now(), 0x82, end, e, ok);
      }
    }
    if !ok {
      ProtocolRuns.Stop(p);
      StopShows(b, middle, p.io.trace, client, form);
    }
  }

  /** Dropping what is left of a transfer shows nothing. */
  lemma StopShows(b: Snapshot, t: seq<Event>, u: seq<Event>, client: seq<bytes>, form: Form)
    requires b.trace <= t && (u == t || u == t + [Aborted])
    ensures ShowsInOrder(t, |b.trace|, client, form) ==> ShowsInOrder(u, |b.trace|, client, form)
    ensures NoRefresh(t, |b.trace|) ==> NoRefresh(u, |b.trace|)
  {
    hide Fold, SentBy;
    if ShowsInOrder(t, |b.trace|, client, form) {
      forall i | |b.trace| <= i < |u| && u[i].Finished?
        ensures Fold(u[..i]).Some? && SentBy(Fold(u[..i]).value.session, client, form)
      {
        assert t[i].Finished? && u[..i] == t[..i];
      }
    }
  }

  lemma EndShows(p: Protocol, b: Snapshot, client: seq<bytes>, end: bytes, e: Ending, form: Form, ok: bool)
    requires EndDone(b, p.Now(), 0x82, end, e, ok)
    requires b.active ==> |b.frames| <= |client| && b.frames == client[..|b.frames|] && FormOf(b) == form
    ensures !p.active && b.trace <= p.io.trace && ShowsInOrder(p.io.trace, |b.trace|, client, form)
    ensures !b.active ==> NoRefresh(p.io.trace, |b.trace|) && p.displayedEtag == b.displayedEtag
  {
    hide Fold, Flatten, SackFrame, FinishEvents, EndEtag, Satisfied, Stuck, Data, Inflated;
    if e.shown {
      assert SentBy(e.image, client, form);
    } else {
      DataOfEnd(b, end, e);
      MovesNoRefresh(b.trace, e.moved,
          RefuseEvents(b.active, b.pipe, SackFrame(0, b.nextSeq, b.pipeFrames), 0x82, e.answers));
    }
  }

  lemma DataOfEnd(b: Snapshot, end: bytes, e: Ending)
    requires if EndFits(b.active, b.pipe, b.partial, 0x82, end)
             then Streamed(b.compressed, [], true, b.expected - b.received, e.moved, e.flushed) else e.moved == []
    ensures DataOnly(e.moved)
  {
  }

  lemma AllHeld(p: Protocol, client: seq<bytes>)
    requires InOrder(p, client) && |p.frames| == |client|
    ensures p.frames == client
  {
  }

  /** A whole PIPE upload from the moment its transfer is open, of the panel or of a region, raw or
      compressed: whatever arrives in whatever order, and whatever the END says, every image shown on
      the way is the client's. And when every frame came in its turn, none was fatal, the END was well
      formed where one is needed, and nothing failed, the image was shown exactly once, and the name
      the END gives it is kept. */
  method Upload(p: Protocol, client: seq<bytes>, arrivals: seq<nat>, end: bytes) returns (ok: bool)
    requires p.Valid() && InOrder(p, client) && p.frames == []
    modifies p, p.io, p.io.epd, p.config, p.config.flash, p.config.flash.mem
    ensures p.Valid() && !p.active && old(p.io.trace) <= p.io.trace
    ensures ShowsInOrder(p.io.trace, |old(p.io.trace)|, client, FormOf(old(p.Now())))
    ensures var b, n := old(p.Now()), |client|;
            && n > 0 && Fitting(b, client) && HeldAfter(arrivals, 0, n) == n && Harmless(arrivals, 0, n, Auto(b))
            && EndsWell(b, end) && AllWell(p.io.trace, |b.trace|) && (b.compressed ==> AllThere(b, p.io.trace)) ==>
              OneRefresh(p.io.trace, |b.trace|)
              && p.displayedEtag == if Auto(b) then 0 else if |end| == 5 then Be(end[1..5]) else b.newEtag
    ensures old(!p.compressed) && [] !in client && |Flatten(client)| == old(p.expected) ==>
        ShowsWholly(p.io.trace, |old(p.io.trace)|, Flatten(client))
  {
    hide Panel.Valid, Protocol.Inv, Protocol.Settings, ConfigStore.Store.Valid, ConfigStore.Store.Effective;
    hide InOrder, Fold, Flatten, Fed, ShowsInOrder, OneRefresh, NoRefresh, AllWell, Swell, LastWord, EndEtag, Be;
    ghost var b := p.Now();
    EndBytes(b.newEtag, end);
    Transmit(p, client, 0, arrivals);
    ghost var c := p.Now();
    if p.active {
      Counters(p, client);
      if |p.frames| == |client| {
        AllHeld(p, client);
      }
    }
    ok := Close(p, client, end, FormOf(b));
    ShowsJoin(|b.trace|, c.trace, p.io.trace, client, FormOf(b));
    OneInAll(b.trace, c.trace, p.io.trace);
    SwellJoin(c.trace, p.io.trace, |b.trace|);
    GoodBefore(b, c.trace, p.io.trace);
    if !b.compressed && [] !in client && |Flatten(client)| == b.expected {
      InOrderIsWhole(p.io.trace, |b.trace|, client, FormOf(b));
    }
    if c.active {
      GoodSplit(b, c, p.io.trace);
      if b.compressed && AllThere(b, p.io.trace) {
        ThereOn(b, c, p.io.trace);
      }
    }
  }

  /** What a client announces with its start. */
  function Announcement(start: bytes): Form {
    if |start| < 10 then Form(0, false) else Form(Le(start[6..10]), start[1] & 1 != 0)
  }

  /** A well-formed start, on the image on the panel if it is for a region. */
  predicate StartsWell(start: bytes, shown: nat) {
    PipeRefusal(start) == 0 && (|start| == 22 ==> PipeRegionRefusal(start, shown) == 0)
  }

  /** Frames that go with a start. */
  predicate Matches(start: bytes, client: seq<bytes>)
    requires |start| >= 10
  {
    && client != [] && [] !in client && (forall f :: f in client ==> |f| + 3 <= PipeFrame(start))
    && if Announcement(start).zip then |client| < TWO_32 else |Flatten(client)| == Announcement(start).size
  }

  /** A PIPE upload command by command, as the main loop hands it on, from the start through the frames
      that arrive to the END. Every image shown on the way is the client's, and a raw one is whole and
      exact. And when the start is well formed, the frames go with it and each comes in its turn, none
      is fatal, the END is well formed where one is needed, nothing fails, and a compressed stream
      inflates to the image, then the image is shown exactly once, and bears the name of the END. */
  method Converse(p: Protocol, start: bytes, client: seq<bytes>, arrivals: seq<nat>, end: bytes)
    requires p.Valid()
    modifies p, p.io, p.io.epd, p.config, p.config.flash, p.config.flash.mem
    ensures p.Valid() && !p.active && old(p.io.trace) <= p.io.trace
    ensures ShowsInOrder(p.io.trace, |old(p.io.trace)|, client, Announcement(start))
    ensures var form := Announcement(start);
            !form.zip && [] !in client && |Flatten(client)| == form.size ==>
              ShowsWholly(p.io.trace, |old(p.io.trace)|, Flatten(client))
    ensures var b, form, n := old(p.Now()), Announcement(start), |client|;
            var auto := !form.zip && |start| != 22;
            && StartsWell(start, NamedBase(b)) && Matches(start, client)
            && HeldAfter(arrivals, 0, n) == n && Harmless(arrivals, 0, n, auto)
            && (auto || EndFits(true, true, |start| == 22, 0x82, end))
            && AllWell(p.io.trace, |b.trace|) && (form.zip ==> Inflates(p.io.trace, |b.trace|, form.size)) ==>
              && OneRefresh(p.io.trace, |b.trace|)
              && p.displayedEtag == if !auto && |end| == 5 then Be(end[1..5]) else 0
  {
    hide Panel.Valid, Protocol.Inv, Protocol.Settings, ConfigStore.Store.Valid, ConfigStore.Store.Effective;
    hide InOrder, Fold, Flatten, ShowsInOrder, OneRefresh, NoRefresh, AllWell, Swell, LastWord, EndEtag, PipeRefusal;
    hide PipeFrame, EndFits, Harmless, Announcement, HeldAfter;
    ghost var b := p.Now();
    Start(p, start, client);
    ghost var c := p.Now();
    NothingMoved(c.trace, client, Announcement(start));
    if p.active {
      var ok := Upload(p, client, arrivals, end);
      ShowsJoin(|b.trace|, c.trace, p.io.trace, client, Announcement(start));
      OneInAll(b.trace, c.trace, p.io.trace);
      StillInflates(b.trace, c.trace, p.io.trace, Announcement(start).size);
    }
    if !Announcement(start).zip && [] !in client && |Flatten(client)| == Announcement(start).size {
      InOrderIsWhole(p.io.trace, |b.trace|, client, Announcement(start));
    }
  }

  lemma InOrderIsWhole(trace: seq<Event>, from: nat, client: seq<bytes>, form: Form)
    requires ShowsInOrder(trace, from, client, form)
    requires !form.zip && [] !in client && |Flatten(client)| == form.size
    ensures ShowsWholly(trace, from, Flatten(client))
  {
    hide Fold, SentBy, Flatten;
    forall i | from <= i < |trace| && trace[i].Finished?
      ensures Fold(trace[..i]).Some? && Fold(trace[..i]).value.session.Open?
              && Fold(trace[..i]).value.session.written == Flatten(client)
    {
      SentWhole(Fold(trace[..i]).value.session, client, form);
    }
  }

  /** What a start leaves open: an empty transfer of the form announced. */
  ghost predicate Ready(p: Protocol, start: bytes, client: seq<bytes>)
    reads p, p.io
  {
    && InOrder(p, client) && p.frames == [] && FormOf(p.Now()) == Announcement(start) && |start| >= 10
    && p.received == p.newEtag == 0 && p.partial == (|start| == 22) && p.pipeFrame == PipeFrame(start)
  }

  /** A PIPE start, as the main loop hands it on. */
  method Start(p: Protocol, start: bytes, client: seq<bytes>)
    requires p.Valid()
    modifies p, p.io, p.io.epd, p.config, p.config.flash, p.config.flash.mem
    ensures p.Valid() && old(p.io.trace) <= p.io.trace
    ensures NoRefresh(p.io.trace, |old(p.io.trace)|) && Swell(p.io.trace, |old(p.io.trace)|) == 0
    ensures ShowsInOrder(p.io.trace, |old(p.io.trace)|, client, Announcement(start))
    ensures p.active ==> Ready(p, start, client)
    ensures StartsWell(start, NamedBase(old(p.Now()))) && AllWell(p.io.trace, |old(p.io.trace)|) ==> p.active
  {
    hide Panel.Valid, Protocol.Inv, ConfigStore.Store.Valid, ConfigStore.Store.Effective;
    hide Ready, AllWell, NoRefresh, Announcement, StartsWell, Swell, ShowsInOrder;
    ghost var b := p.Now();
    var ok := HandleStart(p, start, client);
    ghost var middle := p.io.trace;
    if !ok {
      ProtocolRuns.Stop(p);
      StopShows(b, middle, p.io.trace, client, Announcement(start));
      StopIsNotWell(b.trace, middle, p.io.trace);
    }
    QuietShows(p.io.trace, |b.trace|, client, Announcement(start));
  }

  method HandleStart(p: Protocol, start: bytes, client: seq<bytes>) returns (ok: bool)
    requires p.Valid()
    modifies p, p.io, p.io.epd, p.config, p.config.flash, p.config.flash.mem
    ensures p.Valid() && old(p.io.trace) <= p.io.trace
    ensures NoRefresh(p.io.trace, |old(p.io.trace)|) && Swell(p.io.trace, |old(p.io.trace)|) == 0
    ensures p.active && ok ==> Ready(p, start, client)
    ensures AllWell(p.io.trace, |old(p.io.trace)|) && StartsWell(start, NamedBase(old(p.Now()))) ==> ok && p.active
  {
    hide Panel.Valid, Protocol.Inv, Protocol.Settings, Stores, ConfigStore.Store.Valid,
        ConfigStore.Store.Effective;
    hide Ready, PipeStarted, PipeAfter, AllWell, NoRefresh, StartsWell, Swell;
    ghost var b := p.Now();
    NothingMoved(b.trace, client, Announcement(start));
    assert ([0, 0x80] + start)[2..] == start;
    ok := p.Handle([0, 0x80] + start);
    if |start| + 2 <= MAX_FRAME {
      ghost var r: Started :| PipeStarted(b, p.io.trace, start, r, ok) && p.Now() == PipeAfter(b, start, r, p.io.trace);
      StartShows(b, p.io.trace, start, r, ok);
      StartOpens(p, b, start, client, r, ok);
    } else {
      Oversize(start, NamedBase(b));
    }
  }

  lemma QuietShows(trace: seq<Event>, from: nat, client: seq<bytes>, form: Form)
    requires NoRefresh(trace, from)
    ensures ShowsInOrder(trace, from, client, form)
  {
  }

  lemma Oversize(start: bytes, shown: nat)
    requires |start| > 22
    ensures !StartsWell(start, shown)
  {
    hide Le, RegionBytes;
  }

  /** A start shows and inflates nothing, and fails only visibly. */
  lemma StartShows(b: Snapshot, trace: seq<Event>, start: bytes, r: Started, ok: bool)
    requires PipeStarted(b, trace, start, r, ok)
    ensures b.trace <= trace && NoRefresh(trace, |b.trace|) && Swell(trace, |b.trace|) == 0
    ensures AllWell(trace, |b.trace|) ==> ok && (StartsWell(start, NamedBase(b)) ==> r.accepted)
  {
    hide StartsWell, PipeOpening, PipeStarted, Inflated;
    StartEvents(b, trace, start, r, ok);
    var answers := trace[|b.trace|..];
    assert trace == b.trace + answers && forall i :: 0 <= i < |answers| ==> answers[i] == trace[|b.trace| + i];
    NoMoreInflated(answers);
    OpeningIsWell(start, r.began);
  }

  lemma OpeningIsWell(start: bytes, began: bool)
    ensures Well(PipeOpening(start, began)) == began
  {
    hide Le;
  }

  lemma StartEvents(b: Snapshot, trace: seq<Event>, start: bytes, r: Started, ok: bool)
    requires PipeStarted(b, trace, start, r, ok)
    ensures b.trace < trace && trace[|trace| - 1].Sent? && trace[|trace| - 1].ok == ok
    ensures forall i :: |b.trace| <= i < |trace| ==> !trace[i].Finished? && !trace[i].Polled?
    ensures StartsWell(start, NamedBase(b)) ==>
        var n := |b.trace + Aborts(b.active)|;
        n < |trace| && trace[n] == PipeOpening(start, r.began) && r.accepted == r.began
  {
    hide Le, PipeRefusal, PipeRegionRefusal, PipeFrame, PipeAccept, RegionBytes;
  }

  /** An accepted one opens an empty transfer of the form announced. */
  lemma StartOpens(p: Protocol, b: Snapshot, start: bytes, client: seq<bytes>, r: Started, ok: bool)
    requires p.Inv() && PipeStarted(b, p.io.trace, start, r, ok) && p.Now() == PipeAfter(b, start, r, p.io.trace)
    ensures p.active == r.accepted
    ensures p.active ==> Ready(p, start, client)
  {
    hide Panel.Valid, Le, PipeFrame, PipeRegionRefusal, RegionBytes;
    assert client[..0] == [];
  }

  /** Raw frames that make up the image are shown whole or not at all. */
  lemma SentWhole(image: Session, client: seq<bytes>, form: Form)
    requires SentBy(image, client, form) && !form.zip && [] !in client && |Flatten(client)| == form.size
    ensures image.Open? && image.written == Flatten(client)
  {
    hide Flatten;
    var m :| 0 <= m <= |client| && image.written == Flatten(client[..m]);
    FlattenSplit(client, m);
    assert client[..|client|] == client;
  }
}
