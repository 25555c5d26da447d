/** Direct and partial uploads: a start, the data in order, and an END, as the main loop hands them on. */
module DirectRuns {
  import opened Bytes
  import opened Epd
  import opened Frames
  import opened PanelIo
  import opened Protocol
  import opened Uploads
  import ConfigStore
  import ProtocolRuns

  const DIRECT: byte := 0x70
  const PARTIAL: byte := 0x76

  /** What a client announces with its start. */
  function Announcement(cmd: byte, start: bytes): Form {
    if cmd == DIRECT then Form(FRAME_BYTES, start != [])
    else if |start| < 17 then Form(0, false)
    else Form(RegionBytes(Be(start[13..15]), Be(start[15..17])), start[0] == 1)
  }

  /** The data sent along with it. */
  function First(cmd: byte, start: bytes): seq<bytes> {
    if cmd == DIRECT then if |start| < 4 then [] else [start[4..]]
    else if |start| < 17 then []
    else [start[17..]]
  }

  /** The name it gives the new image. */
  function NewName(cmd: byte, start: bytes): nat {
    if cmd == DIRECT || |start| < 17 then 0 else Be(start[5..9])
  }

  /** A well-formed start, on the image on the panel if it is for a region. */
  predicate StartsWell(cmd: byte, start: bytes, shown: nat) {
    |start| + 2 <= MAX_FRAME && if cmd == DIRECT then WholeStart(start) else PartialRefusal(start, shown) == 0
  }

  /** Every refresh since then showed what was made of exactly these pieces. */
  ghost predicate ShowsAll(trace: seq<Event>, from: nat, pieces: seq<bytes>, form: Form) {
    forall i :: from <= i < |trace| && trace[i].Finished? ==>
      Fold(trace[..i]).Some? && MadeOf(Fold(trace[..i]).value.session, pieces, form)
  }

  ghost predicate MadeOf(image: Session, pieces: seq<bytes>, form: Form) {
    && image.Open? && |image.written| == form.size && image.zip.Inflating? == form.zip
    && Fed(image) == Flatten(pieces)
  }

  /** The transfer opened as s is as it was, but for the pieces it has taken in order. */
  ghost predicate Holds(a: Snapshot, s: Snapshot, pieces: seq<bytes>, m: nat) {
    && m <= |pieces| && s.trace <= a.trace && s.active && !s.pipe
    && a == s.(received := a.received, frames := pieces[..m], trace := a.trace)
    && (s.compressed ==> a.received == s.received + Swell(a.trace, |s.trace|))
  }

  // ----- the start

  /** A start shows nothing; what it opens holds the data sent along, and it opens when it is well formed,
      nothing fails and the data fits. */
  ghost predicate Begins(b: Snapshot, a: Snapshot, cmd: byte, start: bytes, ok: bool) {
    && b.trace <= a.trace && NoRefresh(a.trace, |b.trace|)
    && (a.active ==>
          && !a.pipe && a.partial == (cmd == PARTIAL) && FormOf(a) == Announcement(cmd, start)
          && a.frames == First(cmd, start) && a.newEtag == NewName(cmd, start)
          && (a.compressed ==> a.received == Swell(a.trace, |b.trace|)))
    && var form := Announcement(cmd, start);
    && StartsWell(cmd, start, NamedBase(b)) && AllWell(a.trace, |b.trace|)
    && (if form.zip then Swell(a.trace, |b.trace|) <= form.size else |Flatten(First(cmd, start))| <= form.size) ==>
      ok && a.active
  }

  /** A record that opens the panel, moves the first data and answers. */
  ghost predicate OpensWith(b: Snapshot, trace: seq<Event>, opening: seq<Event>, moved: seq<Event>,
                            answers: seq<Event>) {
    && trace == b.trace + opening + moved + answers && DataOnly(moved)
    && (forall e :: e in opening ==> e.Aborted? || e.Begun? || e.Windowed? || e.Reset?)
    && (forall e :: e in answers ==> e.Sent? || e.Aborted?)
  }

  lemma OpensQuietly(b: Snapshot, trace: seq<Event>, opening: seq<Event>, moved: seq<Event>, answers: seq<Event>)
    requires OpensWith(b, trace, opening, moved, answers)
    ensures b.trace <= trace && NoRefresh(trace, |b.trace|) && Swell(trace, |b.trace|) == |Inflated(moved)|
    ensures AllWell(trace, |b.trace|) ==> AllWell(trace, |b.trace + opening|)
    ensures Swell(trace, |b.trace + opening|) == |Inflated(moved)|
  {
    hide Inflated, Well;
    assert trace[|b.trace|..] == opening + moved + answers && trace[|b.trace + opening|..] == moved + answers;
    NoMoreInflated(opening);
    NoMoreInflated(answers);
    InflatedConcat(opening, moved);
    InflatedConcat(opening + moved, answers);
    InflatedConcat(moved, answers);
    MovesNoRefresh(b.trace + opening, moved, answers);
    assert b.trace + opening == b.trace + [] + opening;
    MovesNoRefresh(b.trace, [], opening);
    NoneThenNone(b.trace + opening, trace, |b.trace|);
  }

  /** Data sent along that goes through. */
  lemma FirstGoes(b: Snapshot, trace: seq<Event>, opening: seq<Event>, moved: seq<Event>, answers: seq<Event>,
                  zip: bool, data: bytes, size: nat)
    requires OpensWith(b, trace, opening, moved, answers) && AllWell(trace, |b.trace|)
    requires if zip then Swell(trace, |b.trace|) <= size else |data| <= size
    ensures !Streamed(zip, data, false, size, moved, false)
  {
    hide Streamed, Swell, AllWell;
    OpensQuietly(b, trace, opening, moved, answers);
    var c := b.(trace := b.trace + opening, compressed := zip, received := 0, expected := size);
    NotRejected(trace, c, data, moved, answers);
  }

  /** A start that is turned away. */
  lemma TurnedAway(b: Snapshot, trace: seq<Event>, answer: bytes, ok: bool)
    requires trace == b.trace + Aborts(b.active) + [Sent(answer, ok)]
    ensures b.trace <= trace && NoRefresh(trace, |b.trace|)
  {
    hide Inflated;
    assert trace == b.trace + Aborts(b.active) + [] + [Sent(answer, ok)];
    OpensQuietly(b, trace, Aborts(b.active), [], [Sent(answer, ok)]);
  }

  /** A start the panel does not open for. */
  lemma Unopened(b: Snapshot, trace: seq<Event>, opening: Event, answer: bytes, ok: bool)
    requires trace == b.trace + Aborts(b.active) + [opening] + [Sent(answer, ok)]
    requires (opening.Begun? || opening.Windowed?) && !Well(opening)
    ensures b.trace <= trace && NoRefresh(trace, |b.trace|) && !AllWell(trace, |b.trace|)
  {
    hide Inflated;
    var first := Aborts(b.active) + [opening];
    assert trace == b.trace + first + [] + [Sent(answer, ok)];
    OpensQuietly(b, trace, first, [], [Sent(answer, ok)]);
    assert trace[|b.trace + Aborts(b.active)|] == opening;
  }

  /** One the panel opens for. */
  lemma OpenedFor(b: Snapshot, trace: seq<Event>, opening: Event, zip: bool, data: bytes, size: nat, moved: seq<Event>,
                  accepted: bool, answer: bytes, ok: bool)
    requires trace == b.trace + Aborts(b.active) + [opening] + Resets(zip, size) + moved + Aborts(!accepted)
                      + [Sent(answer, ok)]
    requires (opening.Begun? || opening.Windowed?) && Streamed(zip, data, false, size, moved, accepted)
    ensures b.trace <= trace && NoRefresh(trace, |b.trace|) && Swell(trace, |b.trace|) == |Inflated(moved)|
    ensures zip && accepted ==> |Data(moved)| == |Inflated(moved)|
    ensures AllWell(trace, |b.trace|) && (if zip then Swell(trace, |b.trace|) <= size else |data| <= size) ==>
      ok && accepted
  {
    hide Inflated, Data, Satisfied, Stuck, NoRefresh, AllWell, Swell;
    var first, answers := Aborts(b.active) + [opening] + Resets(zip, size), Aborts(!accepted) + [Sent(answer, ok)];
    assert trace == b.trace + first + moved + answers;
    OpensQuietly(b, trace, first, moved, answers);
    WellEnds(trace, |b.trace|);
    if AllWell(trace, |b.trace|) && (if zip then Swell(trace, |b.trace|) <= size else |data| <= size) && !accepted {
      FirstGoes(b, trace, first, moved, answers, zip, data, size);
    }
  }

  /** The last answer of a good run went out. */
  lemma WellEnds(trace: seq<Event>, from: nat)
    requires from < |trace| && trace[|trace| - 1].Sent?
    ensures AllWell(trace, from) ==> trace[|trace| - 1].ok
  {
    if AllWell(trace, from) {
      WellAt(trace, from, |trace| - 1);
    }
  }

  lemma FlattenOne(data: bytes)
    ensures Flatten([data]) == data && Flatten([]) == []
  {
    FlattenSnoc([], data);
    assert [] + [data] == [data];
  }

  lemma DirectBegins(b: Snapshot, a: Snapshot, start: bytes, r: Started, ok: bool)
    requires DirectStarted(b, a.trace, start, r, ok) && a == DirectAfter(b, start, r, a.trace)
    ensures Begins(b, a, DIRECT, start, ok)
  {
    hide Le, Data, Inflated, AllWell, NoRefresh, Swell, Flatten, Streamed, Resets;
    if !WholeStart(start) {
      TurnedAway(b, a.trace, Reply(0x70, false), ok);
    } else if !r.began {
      Unopened(b, a.trace, Begun(false), Reply(0x70, false), ok);
    } else if start == [] {
      NoStream(FRAME_BYTES);
      OpenedFor(b, a.trace, Begun(true), false, [], FRAME_BYTES, [], true, Reply(0x70, true), ok);
      FlattenOne([]);
    } else {
      OpenedFor(b, a.trace, Begun(true), true, start[4..], FRAME_BYTES, r.moved, r.accepted,
                Reply(0x70, r.accepted), ok);
    }
  }

  lemma NoStream(size: nat)
    ensures Streamed(false, [], false, size, [], true) && Resets(false, size) == [] && Data([]) == []
  {
  }

  lemma PartialBegins(b: Snapshot, a: Snapshot, start: bytes, r: Started, ok: bool)
    requires PartialStarted(b, a.trace, start, r, ok) && a == PartialAfter(b, start, r, a.trace)
    ensures Begins(b, a, PARTIAL, start, ok)
  {
    hide Be, Data, Inflated, AllWell, NoRefresh, Swell, Flatten, Streamed, Resets, RegionBytes, PartialRefusal;
    var refusal, size := PartialRefusal(start, NamedBase(b)), Announcement(PARTIAL, start).size;
    if refusal != 0 {
      TurnedAway(b, a.trace, ErrorReply(0x76, refusal), ok);
    } else if !r.began {
      Unopened(b, a.trace, PartialWindow(start, false), ErrorReply(0x76, 6), ok);
    } else {
      FlattenOne(start[17..]);
      OpenedFor(b, a.trace, PartialWindow(start, true), start[0] == 1, start[17..], size, r.moved, r.accepted,
                if r.accepted then Reply(0x76, true) else ErrorReply(0x76, 6), ok);
    }
  }

  /** A start, and the end of the transfer when it reports failure. */
  method Start(p: Protocol, cmd: byte, start: bytes) returns (ok: bool)
    requires p.Valid() && cmd in {DIRECT, PARTIAL}
    modifies p, p.io, p.io.epd, p.config, p.config.flash, p.config.flash.mem
    ensures p.Valid() && Begins(old(p.Now()), p.Now(), cmd, start, ok)
  {
    hide Panel.Valid, Protocol.Inv, Protocol.Settings, Stores, ConfigStore.Store.Valid, ConfigStore.Store.Effective;
    hide Begins, DirectStarted, PartialStarted, DirectAfter, PartialAfter;
    ghost var b := p.Now();
    assert ([0, cmd] + start)[2..] == start;
    ok := p.Handle([0, cmd] + start);
    if |start| + 2 <= MAX_FRAME {
      if cmd == DIRECT {
        ghost var r: Started :|
          DirectStarted(b, p.io.trace, start, r, ok) && p.Now() == DirectAfter(b, start, r, p.io.trace);
        DirectBegins(b, p.Now(), start, r, ok);
      } else {
        ghost var r: Started :|
          PartialStarted(b, p.io.trace, start, r, ok) && p.Now() == PartialAfter(b, start, r, p.io.trace);
        PartialBegins(b, p.Now(), start, r, ok);
      }
    }
    ghost var middle := p.Now();
    if !ok {
      ProtocolRuns.Stop(p);
      BeginsStopped(b, middle, p.Now(), cmd, start);
    }
  }

  lemma BeginsStopped(b: Snapshot, m: Snapshot, a: Snapshot, cmd: byte, start: bytes)
    requires a.trace == m.trace + Aborts(m.active) && !a.active
    requires Begins(b, m, cmd, start, false) || (|start| + 2 > MAX_FRAME && m.trace == b.trace)
    ensures Begins(b, a, cmd, start, false)
  {
    hide Well, Swell, Announcement, First, WholeStart, PartialRefusal, Flatten, NoRefresh;
    NothingSince(b.trace);
    if a.trace == m.trace + [Aborted] {
      MovesNoRefresh(m.trace, [], [Aborted]);
      assert m.trace + [] + [Aborted] == a.trace;
    }
    StopIsNotWell(b.trace, m.trace, a.trace);
    NoneThenNone(m.trace, a.trace, |b.trace|);
  }

  lemma NothingSince(t: seq<Event>)
    ensures NoRefresh(t, |t|) && Swell(t, |t|) == 0
  {
    InflatedSnoc([], Rebooted);
    assert t[|t|..] == [];
  }

  // ----- the data

  /** The pieces have sizes a direct transfer takes, and raw ones make up the image. */
  predicate FitsAll(s: Snapshot, pieces: seq<bytes>, first: nat) {
    && (forall i :: first <= i < |pieces| ==> 1 <= |pieces[i]| <= DIRECT_MAX)
    && (!s.compressed ==> |Flatten(pieces)| == s.expected)
  }

  /** The next piece, and the end of the transfer when it reports failure. */
  method Send(p: Protocol, ghost s: Snapshot, pieces: seq<bytes>, ghost first: nat, m: nat) returns (ok: bool)
    requires p.Valid() && first <= m < |pieces| && s.trace <= p.io.trace && (p.active ==> Holds(p.Now(), s, pieces, m))
    modifies p, p.io, p.io.epd, p.config, p.config.flash, p.config.flash.mem
    ensures p.Valid() && Advances(old(p.Now()), p.Now(), s, pieces, first, m)
  {
    hide Panel.Valid, Protocol.Inv, Protocol.Settings, Stores, ConfigStore.Store.Valid, ConfigStore.Store.Effective;
    hide DirectDone, Holds, Advances, Rested;
    ghost var b := p.Now();
    RawSoFar(p);
    assert ([0, 0x71] + pieces[m])[2..] == pieces[m];
    ok := p.Handle([0, 0x71] + pieces[m]);
    ghost var a := p.Now();
    if |pieces[m]| + 2 <= MAX_FRAME {
      ghost var moved, accepted :| DirectDone(b, a, pieces[m], moved, accepted, ok);
      Taken(b, a, s, pieces, first, m, moved, accepted, ok);
    } else {
      TooLong(b, s, pieces, first, m);
    }
    if !ok {
      ProtocolRuns.Stop(p);
      Dropped(b, a, p.Now(), s, pieces, first, m);
    }
  }

  /** What a piece does: the transfer takes it, or is over, and is not over when the pieces fit and
      nothing fails. */
  ghost predicate Advances(b: Snapshot, a: Snapshot, s: Snapshot, pieces: seq<bytes>, first: nat, m: nat) {
    && b.trace <= a.trace && NoRefresh(a.trace, |b.trace|)
    && (a.active ==> b.active && Holds(a, s, pieces, m + 1))
    && (!b.active ==> a.displayedEtag == b.displayedEtag)
    && (b.active && FitsAll(s, pieces, first) && GoodRun(s, a.trace) ==> a.active)
  }

  /** What is true of it before a failure ends the transfer. */
  ghost predicate Unless(b: Snapshot, a: Snapshot, s: Snapshot, pieces: seq<bytes>, first: nat) {
    && b.trace <= a.trace && NoRefresh(a.trace, |b.trace|)
    && (a.active ==> b.active) && (!b.active ==> a.displayedEtag == b.displayedEtag)
    && !(b.active && FitsAll(s, pieces, first) && GoodRun(s, a.trace))
  }

  /** A raw transfer has received what it holds. */
  lemma RawSoFar(p: Protocol)
    requires p.Inv()
    ensures p.active && !p.compressed ==> p.received == |Flatten(p.frames)|
  {
    hide Panel.Valid, Flatten;
  }

  lemma Taken(b: Snapshot, a: Snapshot, s: Snapshot, pieces: seq<bytes>, first: nat, m: nat, moved: seq<Event>,
              accepted: bool, ok: bool)
    requires first <= m < |pieces| && s.trace <= b.trace && (b.active ==> Holds(b, s, pieces, m))
    requires b.active && !b.compressed ==> b.received == |Flatten(b.frames)|
    requires DirectDone(b, a, pieces[m], moved, accepted, ok)
    ensures if ok then Advances(b, a, s, pieces, first, m) else Unless(b, a, s, pieces, first)
  {
    hide Streamed, Flatten, GoodRun, Data, Inflated, NoRefresh, Swell, FitsAll;
    if !b.active || |pieces[m]| == 0 || |pieces[m]| > DIRECT_MAX {
      TurnedAway(b, a.trace, Reply(0x71, false), ok);
      if b.active {
        Misfit(s, pieces, first, m);
      }
    } else {
      Moved(b, a, pieces[m], moved, accepted, ok);
      assert pieces[..m] + [pieces[m]] == pieces[..m + 1];
      if accepted && b.compressed {
        SwellJoin(b.trace, a.trace, |s.trace|);
      }
      if FitsAll(s, pieces, first) && GoodRun(s, a.trace) {
        PieceFits(b, s, pieces, first, m);
        GoodSplit(s, b, a.trace);
        MovesOn(b, a, pieces[m], moved, accepted, ok);
      }
    }
  }

  lemma Misfit(s: Snapshot, pieces: seq<bytes>, first: nat, m: nat)
    requires first <= m < |pieces| && (|pieces[m]| == 0 || |pieces[m]| > DIRECT_MAX)
    ensures !FitsAll(s, pieces, first)
  {
  }

  /** A raw piece has room. */
  lemma PieceFits(b: Snapshot, s: Snapshot, pieces: seq<bytes>, first: nat, m: nat)
    requires first <= m < |pieces| && Holds(b, s, pieces, m) && FitsAll(s, pieces, first)
    requires !b.compressed ==> b.received == |Flatten(b.frames)|
    ensures !b.compressed ==> b.received + |pieces[m]| <= b.expected
  {
    hide Flatten, Swell;
    FlattenSnoc(pieces[..m], pieces[m]);
    assert pieces[..m] + [pieces[m]] == pieces[..m + 1];
    FlattenGrows(pieces, m + 1);
  }

  /** A piece shows nothing, and moves exactly what the inflater yields. */
  lemma Moved(b: Snapshot, a: Snapshot, data: bytes, moved: seq<Event>, accepted: bool, ok: bool)
    requires b.active && !b.pipe && 1 <= |data| <= DIRECT_MAX && DirectDone(b, a, data, moved, accepted, ok)
    ensures b.trace <= a.trace && NoRefresh(a.trace, |b.trace|)
    ensures accepted && b.compressed ==> a.received == b.received + Swell(a.trace, |b.trace|)
  {
    hide Satisfied, Stuck, Inflated, Data;
    var answers := Aborts(!accepted) + [Sent(Reply(0x71, accepted), ok)];
    assert a.trace == b.trace + [] + moved + answers;
    OpensQuietly(b, a.trace, [], moved, answers);
  }

  lemma MovesOn(b: Snapshot, a: Snapshot, data: bytes, moved: seq<Event>, accepted: bool, ok: bool)
    requires b.active && !b.pipe && 1 <= |data| <= DIRECT_MAX && DirectDone(b, a, data, moved, accepted, ok)
    requires GoodRun(b, a.trace) && (!b.compressed ==> b.received + |data| <= b.expected)
    ensures ok && accepted
  {
    hide Satisfied, Stuck, Inflated, Data, GoodRun;
    var answers := Aborts(!accepted) + [Sent(Reply(0x71, accepted), ok)];
    assert a.trace == b.trace + moved + answers;
    GoodIsWell(b, a.trace);
    WellEnds(a.trace, |b.trace|);
    if !accepted {
      NotRejected(a.trace, b, data, moved, answers);
    }
  }

  lemma TooLong(b: Snapshot, s: Snapshot, pieces: seq<bytes>, first: nat, m: nat)
    requires first <= m < |pieces| && |pieces[m]| + 2 > MAX_FRAME
    ensures Unless(b, b, s, pieces, first)
  {
    Misfit(s, pieces, first, m);
    NothingSince(b.trace);
  }

  lemma Dropped(b: Snapshot, m: Snapshot, a: Snapshot, s: Snapshot, pieces: seq<bytes>, first: nat, k: nat)
    requires Unless(b, m, s, pieces, first) && s.trace <= b.trace
    requires a == Rested(m, NamedBase(m), m.trace + Aborts(m.active))
    ensures Advances(b, a, s, pieces, first, k)
  {
    hide GoodRun, NoRefresh, FitsAll, Holds;
    if m.active {
      MovesNoRefresh(m.trace, [], [Aborted]);
      assert m.trace + [] + [Aborted] == a.trace;
      NoneThenNone(m.trace, a.trace, |b.trace|);
    } else {
      assert a.trace == m.trace;
    }
    GoodBefore(s, m.trace, a.trace);
  }

  // ----- the end

  /** The END, and the end of whatever is left. */
  method Finish(p: Protocol, ghost s: Snapshot, ghost pieces: seq<bytes>, end: bytes) returns (ok: bool)
    requires p.Valid() && s.trace <= p.io.trace && (p.active ==> Holds(p.Now(), s, pieces, |pieces|))
    modifies p, p.io, p.io.epd, p.config, p.config.flash, p.config.flash.mem
    ensures p.Valid() && !p.active && Ends(old(p.Now()), p.Now(), FormOf(s), pieces, end)
  {
    hide Panel.Valid, Protocol.Inv, Protocol.Settings, Stores, ConfigStore.Store.Valid, ConfigStore.Store.Effective;
    hide EndDone, Ends;
    ghost var b := p.Now();
    HeldForm(b, s, pieces);
    assert ([0, 0x72] + end)[2..] == end;
    ok := p.Handle([0, 0x72] + end);
    ghost var a := p.Now();
    if |end| + 2 <= MAX_FRAME {
      ghost var e :| EndDone(b, a, 0x72, end, e, ok);
      EndsAs(b, a, FormOf(s), pieces, end, e, ok);
    } else {
      EndTooLong(b, pieces, FormOf(s), end);
    }
    if !ok {
      ProtocolRuns.Stop(p);
      EndDropped(b, a, p.Now(), FormOf(s), pieces, end);
    }
  }

  /** What an END does: it shows all pieces or nothing, and shows them, once and under its name, when it
      fits, nothing fails and all is there. */
  ghost predicate Ends(b: Snapshot, a: Snapshot, form: Form, pieces: seq<bytes>, end: bytes) {
    && b.trace <= a.trace && ShowsAll(a.trace, |b.trace|, pieces, form)
    && (!b.active ==> NoRefresh(a.trace, |b.trace|))
    && (b.active && EndFits(true, false, b.partial, 0x72, end) && AllThere(b, a.trace) && GoodRun(b, a.trace) ==>
          OneRefresh(a.trace, |b.trace|) && a.displayedEtag == EndEtag(b.newEtag, end))
  }

  lemma HeldForm(b: Snapshot, s: Snapshot, pieces: seq<bytes>)
    requires b.active ==> Holds(b, s, pieces, |pieces|)
    ensures b.active ==> !b.pipe && FormOf(b) == FormOf(s) && b.frames == pieces
  {
    hide Swell;
  }

  lemma EndsAs(b: Snapshot, a: Snapshot, form: Form, pieces: seq<bytes>, end: bytes, e: Ending, ok: bool)
    requires EndDone(b, a, 0x72, end, e, ok)
    requires b.active ==> !b.pipe && FormOf(b) == form && b.frames == pieces
    ensures Ends(b, a, form, pieces, end) && !a.active
    ensures b.active && EndFits(true, false, b.partial, 0x72, end) && AllThere(b, a.trace) && GoodRun(b, a.trace) ==> ok
  {
    hide Fold, Flatten, SackFrame, FinishEvents, EndEtag, Satisfied, Stuck, Data, Inflated, AllThere, GoodRun;
    hide OneRefresh, Complete;
    if e.shown {
      ShownIsMade(b, a, form, pieces, e);
    } else {
      assert DataOnly(e.moved);
      MovesNoRefresh(b.trace, e.moved,
                     RefuseEvents(b.active, b.pipe, SackFrame(0, b.nextSeq, b.pipeFrames), 0x72, e.answers));
    }
    if b.active && EndFits(true, false, b.partial, 0x72, end) && AllThere(b, a.trace) && GoodRun(b, a.trace) {
      EndWell(b, a, 0x72, end, e, ok);
    }
  }

  lemma ShownIsMade(b: Snapshot, a: Snapshot, form: Form, pieces: seq<bytes>, e: Ending)
    requires e.image.Open? && Complete(e.image) && e.image.expected == b.expected
    requires e.image.zip.Inflating? == b.compressed && Fed(e.image) == Flatten(b.frames)
    requires RefreshShows(a.trace, |b.trace|, e.image) && FormOf(b) == form && b.frames == pieces
    ensures ShowsAll(a.trace, |b.trace|, pieces, form)
  {
    hide Fold, Flatten;
  }

  lemma EndTooLong(b: Snapshot, pieces: seq<bytes>, form: Form, end: bytes)
    requires |end| + 2 > MAX_FRAME
    ensures Ends(b, b, form, pieces, end) && !EndFits(true, false, b.partial, 0x72, end)
  {
    NothingSince(b.trace);
  }

  lemma EndDropped(b: Snapshot, m: Snapshot, a: Snapshot, form: Form, pieces: seq<bytes>, end: bytes)
    requires Ends(b, m, form, pieces, end)
    requires b.active && EndFits(true, false, b.partial, 0x72, end) ==> !(AllThere(b, m.trace) && GoodRun(b, m.trace))
    requires a == Rested(m, NamedBase(m), m.trace + Aborts(m.active))
    ensures Ends(b, a, form, pieces, end)
  {
    hide GoodRun, AllThere, MadeOf, Fold, OneRefresh, EndFits, NoRefresh;
    StillThere(b, m.trace, a.trace);
    forall i | |b.trace| <= i < |a.trace| && a.trace[i].Finished?
      ensures Fold(a.trace[..i]).Some? && MadeOf(Fold(a.trace[..i]).value.session, pieces, form)
    {
      assert m.trace[i].Finished? && a.trace[..i] == m.trace[..i];
    }
    if m.active {
      MovesNoRefresh(m.trace, [], [Aborted]);
      assert m.trace + [] + [Aborted] == a.trace;
      if !b.active {
        NoneThenNone(m.trace, a.trace, |b.trace|);
      }
    } else {
      assert a.trace == m.trace;
    }
  }

  /** Dropping a transfer adds nothing to what was there. */
  lemma StillThere(b: Snapshot, t: seq<Event>, u: seq<Event>)
    requires b.trace <= t && (u == t || u == t + [Aborted])
    ensures AllThere(b, u) && GoodRun(b, u) ==> AllThere(b, t) && GoodRun(b, t)
  {
    hide Swell, LastWord, Well;
    GoodBefore(b, t, u);
    StopIsNotWell(b.trace, t, u);
    if u == t + [Aborted] {
      assert u[|b.trace|..] == t[|b.trace|..] + [Aborted];
      LastWordStays(t[|b.trace|..], [Aborted]);
    }
  }

  // ----- the whole upload

  /** A direct or partial upload command by command, as the main loop hands it on. Whatever happens, an
      image shown on the way is made of all the pieces the client sent, in order. And when the start is
      well formed, on the image on the panel if it is for a region, the pieces have sizes a transfer
      takes and make up the image, the END fits and nothing fails, it is shown exactly once, and bears
      the name of the END or else of the start. */
  method Converse(p: Protocol, cmd: byte, start: bytes, chunks: seq<bytes>, end: bytes)
    requires p.Valid() && cmd in {DIRECT, PARTIAL}
    modifies p, p.io, p.io.epd, p.config, p.config.flash, p.config.flash.mem
    ensures p.Valid() && !p.active && old(p.io.trace) <= p.io.trace
    ensures ShowsAll(p.io.trace, |old(p.io.trace)|, First(cmd, start) + chunks, Announcement(cmd, start))
    ensures var b, form, pieces := old(p.Now()), Announcement(cmd, start), First(cmd, start) + chunks;
            && StartsWell(cmd, start, NamedBase(b)) && (forall f :: f in chunks ==> 1 <= |f| <= 230)
            && (if form.zip then Inflates(p.io.trace, |b.trace|, form.size) else |Flatten(pieces)| == form.size)
            && EndFits(true, false, cmd == PARTIAL, 0x72, end) && AllWell(p.io.trace, |b.trace|) ==>
              && OneRefresh(p.io.trace, |b.trace|)
              && p.displayedEtag == if |end| == 5 then Be(end[1..5])
                                    else if cmd == 0x76 && |start| >= 9 then Be(start[5..9]) else 0
  {
    hide Panel.Valid, Protocol.Inv, Protocol.Settings, ConfigStore.Store.Valid, ConfigStore.Store.Effective;
    hide Begins, Holds, Advances, Ends, ShowsAll, NoRefresh, OneRefresh, AllWell, Inflates, EndFits, EndEtag;
    hide StartsWell, Announcement, NewName, First, Be;
    ghost var b := p.Now();
    var started := Start(p, cmd, start);
    ghost var c := p.Now();
    ghost var s := c.(trace := b.trace, received := 0);
    var pieces, first := First(cmd, start) + chunks, |First(cmd, start)|;
    Opened(b, c, cmd, start, chunks, started);
    ghost var fits := c.active && FitsAll(s, pieces, first);
    for m := first to |pieces|
      invariant p.Valid() && s.trace <= c.trace <= p.io.trace && NoRefresh(p.io.trace, |b.trace|)
      invariant p.active ==> c.active && Holds(p.Now(), s, pieces, m)
      invariant fits && GoodRun(s, p.io.trace) ==> p.active
    {
      ghost var d := p.Now();
      var ok := Send(p, s, pieces, first, m);
      Further(b, s, d, p.Now(), pieces, first, m);
    }
    ghost var d := p.Now();
    RawSoFar(p);
    EndBytes(NewName(cmd, start), end);
    NameInStart(cmd, start, NamedBase(b));
    var ok := Finish(p, s, pieces, end);
    ShownWhole(b, c, d, p.Now(), cmd, start, chunks, end, started);
    if StartsWell(cmd, start, NamedBase(b)) && (forall f :: f in chunks ==> 1 <= |f| <= 230)
       && (if Announcement(cmd, start).zip then Inflates(p.io.trace, |b.trace|, Announcement(cmd, start).size)
           else |Flatten(pieces)| == Announcement(cmd, start).size)
       && EndFits(true, false, cmd == PARTIAL, 0x72, end) && AllWell(p.io.trace, |b.trace|) {
      ShownOnce(b, c, d, p.Now(), cmd, start, chunks, end, started);
    }
  }

  /** The name in a well-formed start. */
  lemma NameInStart(cmd: byte, start: bytes, shown: nat)
    requires cmd in {DIRECT, PARTIAL}
    ensures StartsWell(cmd, start, shown) ==>
      NewName(cmd, start) == if cmd == 0x76 && |start| >= 9 then Be(start[5..9]) else 0
  {
    hide Be, RegionRefusal;
  }

  /** What the start opened holds the data sent along. */
  lemma Opened(b: Snapshot, c: Snapshot, cmd: byte, start: bytes, chunks: seq<bytes>, started: bool)
    requires Begins(b, c, cmd, start, started)
    ensures b.trace <= c.trace && NoRefresh(c.trace, |b.trace|)
    ensures c.active ==>
      Holds(c, c.(trace := b.trace, received := 0), First(cmd, start) + chunks, |First(cmd, start)|)
  {
    hide First, Announcement, StartsWell, AllWell, Swell, Flatten, NoRefresh;
    var first := First(cmd, start);
    assert (first + chunks)[..|first|] == first;
  }

  lemma Further(b: Snapshot, s: Snapshot, d: Snapshot, a: Snapshot, pieces: seq<bytes>, first: nat, m: nat)
    requires Advances(d, a, s, pieces, first, m) && b.trace <= d.trace && s.trace <= d.trace
    ensures NoRefresh(d.trace, |b.trace|) ==> NoRefresh(a.trace, |b.trace|)
    ensures GoodRun(s, a.trace) ==> GoodRun(s, d.trace)
    ensures d.trace <= a.trace && (a.active ==> d.active && Holds(a, s, pieces, m + 1))
    ensures d.active && FitsAll(s, pieces, first) && GoodRun(s, a.trace) ==> a.active
  {
    hide GoodRun, FitsAll, Holds, NoRefresh;
    GoodBefore(s, d.trace, a.trace);
    if NoRefresh(d.trace, |b.trace|) {
      NoneThenNone(d.trace, a.trace, |b.trace|);
    }
  }

  /** Nothing was shown before the END, and it shows all pieces or nothing. */
  lemma ShownWhole(b: Snapshot, c: Snapshot, d: Snapshot, a: Snapshot, cmd: byte, start: bytes, chunks: seq<bytes>,
                   end: bytes, started: bool)
    requires Begins(b, c, cmd, start, started) && b.trace <= c.trace <= d.trace && NoRefresh(d.trace, |b.trace|)
    requires (d.active ==> c.active) && Ends(d, a, FormOf(c), First(cmd, start) + chunks, end)
    ensures b.trace <= a.trace && ShowsAll(a.trace, |b.trace|, First(cmd, start) + chunks, Announcement(cmd, start))
  {
    hide Fold, MadeOf, OneRefresh, NoRefresh, AllThere, GoodRun, EndFits, EndEtag, StartsWell, AllWell, Swell;
    hide Announcement, First;
    if d.active {
      forall i | |b.trace| <= i < |a.trace| && a.trace[i].Finished?
        ensures Fold(a.trace[..i]).Some?
                && MadeOf(Fold(a.trace[..i]).value.session, First(cmd, start) + chunks, Announcement(cmd, start))
      {
        OnlyAtTheEnd(d.trace, a.trace, |b.trace|, i);
      }
    } else {
      NoneThenNone(d.trace, a.trace, |b.trace|);
      NothingShown(a.trace, |b.trace|, First(cmd, start) + chunks, Announcement(cmd, start));
    }
  }

  lemma NothingShown(trace: seq<Event>, from: nat, pieces: seq<bytes>, form: Form)
    requires NoRefresh(trace, from)
    ensures ShowsAll(trace, from, pieces, form)
  {
    hide MadeOf, Fold;
  }

  lemma OnlyAtTheEnd(t: seq<Event>, u: seq<Event>, from: nat, i: nat)
    requires NoRefresh(t, from) && t <= u && from <= i < |u| && u[i].Finished?
    ensures i >= |t|
  {
    assert forall k :: 0 <= k < |t| ==> u[k] == t[k];
  }

  /** When nothing fails the END finds everything there. */
  lemma ShownOnce(b: Snapshot, c: Snapshot, d: Snapshot, a: Snapshot, cmd: byte, start: bytes, chunks: seq<bytes>,
                  end: bytes, started: bool)
    requires Begins(b, c, cmd, start, started) && b.trace <= c.trace <= d.trace && NoRefresh(d.trace, |b.trace|)
    requires var pieces, first := First(cmd, start) + chunks, |First(cmd, start)|;
             var s := c.(trace := b.trace, received := 0);
             && (d.active ==> c.active && Holds(d, s, pieces, |pieces|))
             && (d.active && !d.compressed ==> d.received == |Flatten(d.frames)|)
             && (c.active && FitsAll(s, pieces, first) && GoodRun(s, d.trace) ==> d.active)
             && Ends(d, a, FormOf(c), pieces, end)
    requires var form, pieces := Announcement(cmd, start), First(cmd, start) + chunks;
             && StartsWell(cmd, start, NamedBase(b)) && (forall f :: f in chunks ==> 1 <= |f| <= 230)
             && (if form.zip then Inflates(a.trace, |b.trace|, form.size) else |Flatten(pieces)| == form.size)
             && EndFits(true, false, cmd == PARTIAL, 0x72, end) && AllWell(a.trace, |b.trace|)
    ensures OneRefresh(a.trace, |b.trace|) && a.displayedEtag == EndEtag(NewName(cmd, start), end)
  {
    hide Flatten, Swell, LastWord, Well, NoRefresh, OneRefresh, ShowsAll, StartsWell, NewName, Announcement, First;
    hide EndFits, EndEtag;
    var pieces, first, s := First(cmd, start) + chunks, |First(cmd, start)|, c.(trace := b.trace, received := 0);
    GoodStart(b, c, a, cmd, start, chunks, started);
    GoodBefore(s, d.trace, a.trace);
    assert pieces[..|pieces|] == pieces;
    assert d.active && d.partial == (cmd == PARTIAL) && d.newEtag == NewName(cmd, start);
    if c.compressed {
      ThereOn(s, d, a.trace);
    }
    GoodSplit(s, d, a.trace);
    NoneThenOne(d.trace, a.trace, |b.trace|);
  }

  /** A good start opens, and its pieces fit. */
  lemma GoodStart(b: Snapshot, c: Snapshot, a: Snapshot, cmd: byte, start: bytes, chunks: seq<bytes>, started: bool)
    requires Begins(b, c, cmd, start, started) && b.trace <= c.trace <= a.trace
    requires var form, pieces := Announcement(cmd, start), First(cmd, start) + chunks;
             && StartsWell(cmd, start, NamedBase(b)) && (forall f :: f in chunks ==> 1 <= |f| <= 230)
             && (if form.zip then Inflates(a.trace, |b.trace|, form.size) else |Flatten(pieces)| == form.size)
             && AllWell(a.trace, |b.trace|)
    ensures var pieces, s := First(cmd, start) + chunks, c.(trace := b.trace, received := 0);
            c.active && FitsAll(s, pieces, |First(cmd, start)|) && GoodRun(s, a.trace)
  {
    hide Flatten, Swell, LastWord, Well, NoRefresh, StartsWell, NewName, Announcement, First;
    var pieces, first := First(cmd, start) + chunks, First(cmd, start);
    assert forall i :: |b.trace| <= i < |c.trace| ==> c.trace[i] == a.trace[i];
    SwellJoin(c.trace, a.trace, |b.trace|);
    assert pieces[..|first|] == first;
    FlattenGrows(pieces, |first|);
    assert forall i :: |first| <= i < |pieces| ==> pieces[i] == chunks[i - |first|] && chunks[i - |first|] in chunks;
  }
}
