/** Whole runs of the transfer protocol: any commands, time-outs and failures. */
module ProtocolRuns {
  import opened Bytes
  import opened Epd
  import opened Frames
  import opened PanelIo
  import opened Protocol
  import ConfigStore

  /** What the main loop feeds the protocol: a command, or the end of a transfer and of an upload
      because of silence, a change of connection or the end of a session. */
  datatype Input = Frame(data: bytes) | Drop

  /** Every refresh in the record shows a complete transfer. */
  ghost predicate OnlyWholeImages(trace: seq<Event>) {
    forall i :: 0 <= i < |trace| && trace[i].Finished? ==> ShowsWhole(trace, i)
  }

  /** Every region was opened on top of the image its client named. */
  ghost predicate OnlyOnNamedImages(trace: seq<Event>) {
    forall i :: 0 <= i < |trace| && trace[i].Windowed? ==>
      var last := LastEnd(trace[..i]);
      trace[i].base != 0 && last.Some? && last.value.Finished? && last.value.ok && last.value.etag == trace[i].base
  }

  lemma SoundRecord(trace: seq<Event>)
    requires Fold(trace).Some?
    ensures OnlyWholeImages(trace) && OnlyOnNamedImages(trace)
  {
    hide Fold, ShowsWhole, LastEnd;
    forall i | 0 <= i < |trace| && trace[i].Finished?
      ensures ShowsWhole(trace, i)
    {
      RefreshIsComplete(trace, i);
    }
    forall i | 0 <= i < |trace| && trace[i].Windowed?
      ensures var last := LastEnd(trace[..i]);
              trace[i].base != 0 && last.Some? && last.value.Finished? && last.value.ok
                  && last.value.etag == trace[i].base
    {
      RegionOnItsBase(trace, i);
    }
  }

  // ----- the name of the image

  /** The answers that tell a client its region was refused for the image it is based on or its place,
      which costs the image its name. */
  predicate CostsName(r: bytes) {
    |r| == 4 && r[0] == 0xff && if r[1] == 0x76 then r[2] in {1, 3, 4} else r[1] == 0x80 && r[2] in {5, 7}
  }

  /** What leaves the name of the image alone. */
  predicate Quiet(e: Event) {
    match e
    case Finished(_, _, _) => false
    case Aborted => false
    case Windowed(_, _, _, _, _, ok) => ok
    case Sent(r, _) => !CostsName(r)
    case _ => true
  }

  /** The name of the image on the panel, read off the record: that of the last refresh, until a
      transfer is dropped or a region is refused or does not open. */
  function NameOf(trace: seq<Event>): nat {
    if trace == [] then 0
    else
      var e := trace[|trace| - 1];
      if Quiet(e) then NameOf(trace[..|trace| - 1])
      else if e.Finished? && e.ok then e.etag
      else 0
  }

  ghost predicate Named(p: Protocol)
    reads p, p.io
  {
    p.displayedEtag == NameOf(p.io.trace)
  }

  lemma NameSnoc(t: seq<Event>, e: Event)
    ensures NameOf(t + [e]) == if Quiet(e) then NameOf(t) else if e.Finished? && e.ok then e.etag else 0
  {
    assert (t + [e])[..|t|] == t;
  }

  lemma {:induction false} NameQuiet(t: seq<Event>, more: seq<Event>)
    requires forall e :: e in more ==> Quiet(e)
    ensures NameOf(t + more) == NameOf(t)
  {
    hide NameOf, Quiet;
    if more == [] {
      assert t + more == t;
    } else {
      var rest, e := more[..|more| - 1], more[|more| - 1];
      NameQuiet(t, rest);
      NameSnoc(t + rest, e);
      assert t + more == t + rest + [e];
    }
  }

  /** Whatever moved, and then an answer that names no region. */
  lemma NameAnswered(t: seq<Event>, moved: seq<Event>, aborts: bool, r: bytes, ok: bool)
    requires DataOnly(moved) && !CostsName(r)
    ensures NameOf(t + moved + Aborts(aborts) + [Sent(r, ok)]) == if aborts then 0 else NameOf(t)
  {
    hide NameOf, CostsName;
    NameQuiet(t, moved);
    NameAborts(t + moved, aborts);
    NameSnoc(t + moved + Aborts(aborts), Sent(r, ok));
  }

  lemma NameAborts(t: seq<Event>, aborts: bool)
    ensures NameOf(t + Aborts(aborts)) == if aborts then 0 else NameOf(t)
  {
    hide NameOf;
    NameSnoc(t, Aborted);
    assert t + [] == t;
  }

  lemma NoCost(cmd: byte, accepted: bool)
    ensures !CostsName(Reply(cmd, accepted))
  {
  }

  lemma NameAfterFinish(t: seq<Event>, pipe: bool, sack: bytes, cmd: byte, mode: byte, etag: nat, a: Answers)
    requires !CostsName(sack)
    ensures NameOf(t + FinishEvents(pipe, sack, cmd, mode, etag, a))
         == if Refreshes(pipe, a) && a.refreshed then etag else 0
  {
    hide NameOf, CostsName;
    var said := Announced(pipe, sack, cmd, a.sacked, a.replied);
    NoCost(cmd, true);
    NoCost(if a.refreshed then 0x73 else 0x74, true);
    var shown, told := Finished(mode, etag, a.refreshed), Sent(Reply(if a.refreshed then 0x73 else 0x74, true), a.told);
    NameSnoc(t + said, Aborted);
    NameSnoc(t + said, shown);
    NameSnoc(t + said + [shown], told);
    assert t + (said + [shown, told]) == t + said + [shown] + [told];
    assert t + (said + [Aborted]) == t + said + [Aborted];
  }

  lemma NameAfterRefusal(t: seq<Event>, active: bool, pipe: bool, sack: bytes, cmd: byte, a: Answers)
    requires !CostsName(sack)
    ensures NameOf(t + RefuseEvents(active, pipe, sack, cmd, a)) == if active then 0 else NameOf(t)
  {
    hide NameOf, CostsName;
    var acknowledge := cmd == 0x82 && active && pipe;
    var first, last := if acknowledge then [Sent(sack, a.sacked)] else [],
                       if acknowledge && !a.sacked then [] else [Sent(Reply(cmd, false), a.told)];
    NoCost(cmd, false);
    NameQuiet(t, first);
    NameAborts(t + first, active);
    NameQuiet(t + first + Aborts(active), last);
    assert t + RefuseEvents(active, pipe, sack, cmd, a) == t + first + Aborts(active) + last;
  }

  lemma SackCosts(error: byte, next: nat, accepted: nat)
    ensures !CostsName(SackFrame(error, next, accepted))
  {
  }

  lemma DirectName(b: Snapshot, trace: seq<Event>, payload: bytes, r: Started, ok: bool)
    requires DirectStarted(b, trace, payload, r, ok) && b.displayedEtag == NameOf(b.trace)
    ensures DirectAfter(b, payload, r, trace).displayedEtag == NameOf(trace)
  {
    hide NameOf, Le, CostsName, Satisfied, Stuck;
    var t := b.trace + Aborts(b.active);
    NameAborts(b.trace, b.active);
    NoCost(0x70, r.accepted);
    NoCost(0x70, false);
    NameSnoc(t, Sent(Reply(0x70, false), ok));
    NameSnoc(t, Begun(r.began));
    NameSnoc(t + [Begun(false)], Sent(Reply(0x70, false), ok));
    if WholeStart(payload) && r.began {
      var begun, resets := t + [Begun(true)], Resets(payload != [], FRAME_BYTES);
      NameQuiet(begun, resets);
      NameAnswered(begun + resets, r.moved, !r.accepted, Reply(0x70, r.accepted), ok);
    }
  }

  lemma PartialName(b: Snapshot, trace: seq<Event>, payload: bytes, r: Started, ok: bool)
    requires PartialStarted(b, trace, payload, r, ok) && b.displayedEtag == NameOf(b.trace)
    ensures PartialAfter(b, payload, r, trace).displayedEtag == NameOf(trace)
  {
    hide NameOf, Be, Satisfied, Stuck, RegionBytes;
    var t, refusal := b.trace + Aborts(b.active), PartialRefusal(payload, NamedBase(b));
    NameAborts(b.trace, b.active);
    NameSnoc(t, Sent(ErrorReply(0x76, refusal), ok));
    if refusal == 0 {
      var opening := PartialWindow(payload, r.began);
      NameSnoc(t, opening);
      NameSnoc(t + [opening], Sent(ErrorReply(0x76, 6), ok));
      if r.began {
        var resets := Resets(payload[0] == 1, RegionBytes(Be(payload[13..15]), Be(payload[15..17])));
        NameQuiet(t + [opening], resets);
        NameAnswered(t + [opening] + resets, r.moved, !r.accepted,
                     if r.accepted then Reply(0x76, true) else ErrorReply(0x76, 6), ok);
      }
    }
  }

  lemma PipeName(b: Snapshot, trace: seq<Event>, payload: bytes, r: Started, ok: bool)
    requires PipeStarted(b, trace, payload, r, ok) && b.displayedEtag == NameOf(b.trace)
    ensures PipeAfter(b, payload, r, trace).displayedEtag == NameOf(trace)
  {
    hide NameOf, CostsName, Le, RegionRefusal, RegionBytes;
    hide PipeRefusal, PipeRegionRefusal, PipeOpening, PipeAccept, PipeFrame;
    PipeParts(payload);
    var t, head := b.trace + Aborts(b.active), PipeRefusal(payload);
    NameAborts(b.trace, b.active);
    NameSnoc(t, Sent(ErrorReply(0x80, head), ok));
    NameSnoc(t, Sent(ErrorReply(0x80, 5), ok));
    NameSnoc(t, Sent(ErrorReply(0x80, 7), ok));
    if head == 0 {
      var opening := PipeOpening(payload, r.began);
      NameSnoc(t, opening);
      NameSnoc(t + [opening], Sent(ErrorReply(0x80, 3), ok));
      NameSnoc(t + [opening], Sent(ErrorReply(0x80, 7), ok));
      var resets := Resets(payload[1] & 1 != 0, Le(payload[6..10]));
      NameQuiet(t + [opening], resets);
      NameSnoc(t + [opening] + resets, Sent(PipeAccept(PipeFrame(payload), |payload| == 22), ok));
    }
  }

  /** What the answers and the opening of a PIPE start mean for the name. */
  lemma PipeParts(payload: bytes)
    ensures !CostsName(ErrorReply(0x80, PipeRefusal(payload))) && !CostsName(ErrorReply(0x80, 3))
    ensures CostsName(ErrorReply(0x80, 5)) && CostsName(ErrorReply(0x80, 7))
    ensures forall frame: nat, partial: bool :: !CostsName(PipeAccept(frame, partial))
    ensures Quiet(PipeOpening(payload, true)) && !PipeOpening(payload, false).Finished?
    ensures Quiet(PipeOpening(payload, false)) <==> |payload| != 22
  {
    hide Le, RegionBytes, LeBytes;
  }

  lemma DataName(p: Protocol, b: Snapshot, payload: bytes, moved: seq<Event>, accepted: bool, ok: bool)
    requires DirectDone(b, p.Now(), payload, moved, accepted, ok) && b.displayedEtag == NameOf(b.trace)
    ensures p.displayedEtag == NameOf(p.io.trace)
  {
    hide NameOf, Satisfied, Stuck, CostsName;
    NoCost(0x71, accepted);
    assert b.trace + [] == b.trace;
    if !b.active || b.pipe || payload == [] || |payload| > DIRECT_MAX {
      NameAnswered(b.trace, [], b.active, Reply(0x71, false), ok);
    } else {
      NameAnswered(b.trace, moved, !accepted, Reply(0x71, accepted), ok);
    }
  }

  lemma EndingName(p: Protocol, b: Snapshot, cmd: byte, payload: bytes, e: Ending, ok: bool)
    requires EndDone(b, p.Now(), cmd, payload, e, ok) && b.displayedEtag == NameOf(b.trace)
    ensures p.displayedEtag == NameOf(p.io.trace)
  {
    hide NameOf, CostsName, Satisfied, Stuck, SackFrame, FinishEvents, RefuseEvents;
    hide RefreshShows, EndEtag, Fed, Flatten;
    var sack := SackFrame(0, b.nextSeq, b.pipeFrames);
    SackCosts(0, b.nextSeq, b.pipeFrames);
    NameQuiet(b.trace, e.moved);
    if e.shown {
      NameAfterFinish(b.trace + e.moved, b.pipe, sack, cmd, EndMode(payload), EndEtag(b.newEtag, payload), e.answers);
    } else {
      NameAfterRefusal(b.trace + e.moved, b.active, b.pipe, sack, cmd, e.answers);
    }
  }

  lemma FrameName(p: Protocol, b: Snapshot, payload: bytes, o: Outcome, ok: bool)
    requires FrameDone(b, p.Now(), payload, o, ok) && b.displayedEtag == NameOf(b.trace)
    ensures p.displayedEtag == NameOf(p.io.trace)
  {
    hide NameOf, CostsName, Satisfied, Stuck, SackFrame, FinishEvents, RefreshShows, Flatten, Recent, Val;
    var next, count := (b.nextSeq + 1) % TWO_8, (b.pipeFrames + 1) % TWO_32;
    SackCosts(0, b.nextSeq, b.pipeFrames);
    SackCosts(0, next, count);
    match o {
      case Ignored =>
      case Duplicate =>
        NameSnoc(b.trace, Sent(SackFrame(0, b.nextSeq, b.pipeFrames), ok));
      case Accepted(moved) =>
        NameQuiet(b.trace, moved);
        NameSnoc(b.trace + moved, Sent(SackFrame(0, next, count), ok));
      case Completed(moved, _, a) =>
        NameAfterFinish(b.trace + moved, true, SackFrame(0, next, count), 0x82, 0, 0, a);
      case Rejected(error, moved) =>
        var said := b.trace + moved + [Sent(SackFrame(error, b.nextSeq, b.pipeFrames), ok)];
        NameSnoc(said, Aborted);
        assert p.io.trace == said + [Aborted];
    }
  }

  lemma OtherName(p: Protocol, b: Snapshot, cmd: byte, payload: bytes, ok: bool)
    requires cmd !in {0x40, 0x70, 0x71, 0x72, 0x76, 0x80, 0x81, 0x82}
    requires Effect(p.sha, b, p.Now(), cmd, payload, ok) && b.displayedEtag == NameOf(b.trace)
    ensures p.displayedEtag == NameOf(p.io.trace)
  {
    hide NameOf;
    var aborts := b.active && (cmd == 0x41 || (payload == [] && (cmd == 0x45 || cmd == 0x0f)));
    NameAborts(b.trace, aborts);
    NameSnoc(b.trace + Aborts(aborts), Rebooted);
    NameSnoc(b.trace + Aborts(aborts), Sent(Reply(cmd, true), ok));
    NameSnoc(b.trace + Aborts(aborts), Sent(Reply(cmd, false), ok));
    assert b.trace + [] == b.trace;
    if cmd == 0x44 {
      MsdName(p, b, payload, ok);
    } else if cmd !in {0x41, 0x42, 0x45, 0x0f} {
      InfoCosts(p, cmd, payload);
      NameSnoc(b.trace, Sent(InfoReply(p.sha, cmd, payload), ok));
    }
  }

  lemma MsdName(p: Protocol, b: Snapshot, payload: bytes, ok: bool)
    requires Effect(p.sha, b, p.Now(), 0x44, payload, ok)
    ensures NameOf(p.io.trace) == NameOf(b.trace)
  {
    hide NameOf;
    var sampled :| MsdTold(b.trace, p.io.trace, payload, sampled, ok);
    MsdAnswer(b.trace, p.io.trace, payload, sampled, ok);
  }

  lemma MsdAnswer(from: seq<Event>, trace: seq<Event>, payload: bytes, sampled: Option<bytes>, ok: bool)
    requires MsdTold(from, trace, payload, sampled, ok)
    ensures NameOf(trace) == NameOf(from)
  {
    hide NameOf;
    var looked := if payload == [] then [Sampled(sampled.Some?)] else [];
    var answer := match sampled case Some(msd) => [0x00 as byte, 0x44] + msd case None => Reply(0x44, false);
    NameQuiet(from, looked);
    NameSnoc(from + looked, Sent(answer, ok));
  }

  lemma InfoCosts(p: Protocol, cmd: byte, payload: bytes)
    ensures !CostsName(InfoReply(p.sha, cmd, payload))
  {
  }

  lemma ReadName(p: Protocol, b: Snapshot, c: bytes, payload: bytes, ok: bool)
    requires payload == [] ==> exists n: nat :: SentReplies(p.io.trace, b.trace, ConfigReplies(c, 0, 0), n, ok)
    requires payload != [] ==> p.io.trace == b.trace + [Sent(Reply(0x40, false), ok)]
    ensures NameOf(p.io.trace) == NameOf(b.trace)
  {
    hide NameOf, ConfigReplies, SentReplies;
    if payload != [] {
      NameSnoc(b.trace, Sent(Reply(0x40, false), ok));
    } else {
      var n: nat :| SentReplies(p.io.trace, b.trace, ConfigReplies(c, 0, 0), n, ok);
      RepliesCost(c, 0, 0);
      RepliesName(p.io.trace, b.trace, ConfigReplies(c, 0, 0), n, ok);
    }
  }

  lemma RepliesName(trace: seq<Event>, from: seq<Event>, replies: seq<bytes>, n: nat, ok: bool)
    requires SentReplies(trace, from, replies, n, ok) && forall r :: r in replies ==> !CostsName(r)
    ensures NameOf(trace) == NameOf(from)
  {
    hide NameOf, CostsName;
    var sent, failed := AllSent(replies[..n]), if ok then [] else [Sent(replies[n], false)];
    assert forall i :: 0 <= i < n ==> replies[i] in replies;
    NameQuiet(from, sent);
    NameQuiet(from + sent, failed);
  }

  lemma {:induction false} RepliesCost(c: bytes, offset: nat, chunk: nat)
    ensures forall r :: r in ConfigReplies(c, offset, chunk) ==> !CostsName(r)
    decreases |c| - offset
  {
    if offset >= |c| {
    } else {
      RepliesCost(c, offset + ChunkSize(chunk), chunk + 1);
    }
  }

  /** The name kept is the one on record, whatever command comes. */
  lemma EffectName(p: Protocol, b: Snapshot, was: ConfigShot, cmd: byte, payload: bytes, ok: bool)
    requires p.config.Valid() && Effect(p.sha, b, p.Now(), cmd, payload, ok)
    requires Stores(was, p.Settings(), b.trace, p.io.trace, cmd, payload, ok)
    requires b.displayedEtag == NameOf(b.trace)
    ensures p.displayedEtag == NameOf(p.io.trace)
  {
    hide NameOf, DirectStarted, DirectAfter, PartialStarted, PartialAfter, PipeStarted, PipeAfter, MsdTold, Rested;
    hide DirectDone, EndDone, FrameDone, InfoReply, Protocol.Settings;
    hide ConfigStarted, ConfigGrown, ConfigCleared, SentReplies, ConfigReplies, ConfigStore.Store.Valid;
    match cmd {
      case 0x40 =>
        ReadName(p, b, was.effective, payload, ok);
      case 0x70 =>
        var r: Started :|
          DirectStarted(b, p.io.trace, payload, r, ok) && p.Now() == DirectAfter(b, payload, r, p.io.trace);
        DirectName(b, p.io.trace, payload, r, ok);
      case 0x71 =>
        var moved, accepted :| DirectDone(b, p.Now(), payload, moved, accepted, ok);
        DataName(p, b, payload, moved, accepted, ok);
      case 0x72 =>
        var e :| EndDone(b, p.Now(), cmd, payload, e, ok);
        EndingName(p, b, cmd, payload, e, ok);
      case 0x76 =>
        var r: Started :|
          PartialStarted(b, p.io.trace, payload, r, ok) && p.Now() == PartialAfter(b, payload, r, p.io.trace);
        PartialName(b, p.io.trace, payload, r, ok);
      case 0x80 =>
        var r: Started :| PipeStarted(b, p.io.trace, payload, r, ok) && p.Now() == PipeAfter(b, payload, r, p.io.trace);
        PipeName(b, p.io.trace, payload, r, ok);
      case 0x81 =>
        var o :| FrameDone(b, p.Now(), payload, o, ok);
        FrameName(p, b, payload, o, ok);
      case 0x82 =>
        var e :| EndDone(b, p.Now(), cmd, payload, e, ok);
        EndingName(p, b, cmd, payload, e, ok);
      case _ =>
        OtherName(p, b, cmd, payload, ok);
    }
  }

  /** A region is what its client may change: a well-formed start of one opens a window on the panel
      exactly when it names the image that is on record, and not while that is being replaced. */
  lemma NamedIsUpdatable(p: Protocol, b: Snapshot, payload: bytes, ok: bool)
    requires Effect(p.sha, b, p.Now(), 0x76, payload, ok) && b.displayedEtag == NameOf(b.trace)
    requires |payload| >= 17 && payload[0] <= 1 && Be(payload[5..9]) != 0
    requires LegalRegion(Be(payload[9..11]), Be(payload[11..13]), Be(payload[13..15]), Be(payload[15..17]))
    ensures (exists began :: b.trace + Aborts(b.active) + [PartialWindow(payload, began)] <= p.io.trace)
       <==> !b.active && Be(payload[1..5]) == NameOf(b.trace) != 0
  {
    hide NameOf, Be, Streamed, RegionBytes;
    var r: Started :|
      PartialStarted(b, p.io.trace, payload, r, ok) && p.Now() == PartialAfter(b, payload, r, p.io.trace);
    var t := b.trace + Aborts(b.active);
    if PartialRefusal(payload, NamedBase(b)) == 0 {
      assert t + [PartialWindow(payload, r.began)] <= p.io.trace;
    } else {
      assert p.io.trace[|t|].Sent?;
    }
  }

  /** The same for a PIPE transfer of a region. */
  lemma NamedIsUpdatableByPipe(p: Protocol, b: Snapshot, payload: bytes, ok: bool)
    requires Effect(p.sha, b, p.Now(), 0x80, payload, ok) && b.displayedEtag == NameOf(b.trace)
    requires |payload| == 22 && PipeRefusal(payload) == 0
    requires LegalRegion(Le(payload[14..16]), Le(payload[16..18]), Le(payload[18..20]), Le(payload[20..22]))
    ensures (exists began :: b.trace + Aborts(b.active) + [PipeOpening(payload, began)] <= p.io.trace)
       <==> !b.active && Le(payload[10..14]) == NameOf(b.trace) != 0
  {
    hide NameOf, Le, RegionBytes, PipeRefusal, PipeAccept;
    var r: Started :| PipeStarted(b, p.io.trace, payload, r, ok) && p.Now() == PipeAfter(b, payload, r, p.io.trace);
    var t := b.trace + Aborts(b.active);
    if PipeRegionRefusal(payload, NamedBase(b)) == 0 {
      assert t + [PipeOpening(payload, r.began)] <= p.io.trace;
    } else {
      assert p.io.trace[|t|].Sent?;
    }
  }

  /** Any run of commands, with the transfer dropped whenever a command reports failure or the main
      loop gives up on it: the record stays sound, only whole images are ever shown, regions only
      ever change the image their client named, and a named image is the one the most recent transfer
      put on the panel: the one the record shows. Each refresh follows, on a stretch of the bus of its
      own, the whole image in the panel's own form, and nothing but a reset ever reaches a sleeping
      panel. */
  method Run(p: Protocol, inputs: seq<Input>)
    requires p.Valid()
    modifies p, p.io, p.io.epd, p.config, p.config.flash, p.config.flash.mem
    ensures p.Valid() && old(p.io.trace) <= p.io.trace
    ensures OnlyWholeImages(p.io.trace) && OnlyOnNamedImages(p.io.trace)
    ensures Timeline(p.io.trace, p.io.marks, p.io.epd.bus) && Disciplined(p.io.epd.bus)
    ensures p.received <= p.expected && !(p.active && p.config.Writing())
    ensures p.displayedEtag != 0 ==> var last := LastEnd(p.io.trace);
              last.Some? && last.value.Finished? && last.value.ok && last.value.etag == p.displayedEtag
    ensures old(Named(p)) ==> Named(p)
  {
    hide Protocol.Valid, Fold, Timeline, Disciplined, OpenSince, OnlyWholeImages, OnlyOnNamedImages, LastEnd,
        NameOf;
    hide ConfigStore.Store.Valid, ConfigStore.Store.Effective;
    var i := 0;
    while i < |inputs|
      invariant p.Valid() && old(p.io.trace) <= p.io.trace
      invariant old(Named(p)) ==> Named(p)
    {
      match inputs[i] {
        case Frame(data) =>
          var ok := Command(p, data);
        case Drop =>
          Give(p);
      }
      i := i + 1;
    }
    Meaning(p);
  }

  /** A command, and the end of the transfer when it reports failure. */
  method Command(p: Protocol, data: bytes) returns (ok: bool)
    requires p.Valid()
    modifies p, p.io, p.io.epd, p.config, p.config.flash, p.config.flash.mem
    ensures p.Valid() && old(p.io.trace) <= p.io.trace
    ensures old(Named(p)) ==> Named(p)
  {
    hide Panel.Valid, Protocol.Linked, Protocol.Running, Protocol.Idle, Protocol.Inv, Effect, Stores;
    hide ConfigStore.Store.Valid, ConfigStore.Store.Effective, Protocol.Settings, NameOf;
    ghost var b, was, named := p.Now(), p.Settings(), Named(p);
    ok := p.Handle(data);
    if named {
      HandledName(p, b, was, data, ok);
    }
    if !ok {
      Stop(p);
    }
  }

  lemma HandledName(p: Protocol, b: Snapshot, was: ConfigShot, data: bytes, ok: bool)
    requires p.config.Valid() && b.displayedEtag == NameOf(b.trace)
    requires if 2 <= |data| <= MAX_FRAME && data[0] == 0 then
        && Effect(p.sha, b, p.Now(), data[1], data[2..], ok)
        && Stores(was, p.Settings(), b.trace, p.io.trace, data[1], data[2..], ok)
      else
        && p.Now() == b.(trace := p.io.trace)
        && p.io.trace == b.trace + if 2 <= |data| <= MAX_FRAME then [Sent(Reply(data[1], false), ok)] else []
    ensures Named(p)
  {
    hide NameOf, Effect, Stores, ConfigStore.Store.Valid;
    assert b.trace + [] == b.trace;
    if 2 <= |data| <= MAX_FRAME && data[0] == 0 {
      EffectName(p, b, was, data[1], data[2..], ok);
    } else if 2 <= |data| <= MAX_FRAME {
      NoCost(data[1], false);
      NameSnoc(b.trace, Sent(Reply(data[1], false), ok));
    }
  }

  /** A failed command ends the transfer, and leaves an upload alone. */
  method Stop(p: Protocol)
    requires p.Valid()
    modifies p, p.io, p.io.epd
    ensures p.Valid() && p.io.trace == old(p.io.trace) + Aborts(old(p.active))
    ensures p.Now() == Rested(old(p.Now()), NamedBase(old(p.Now())), p.io.trace)
    ensures old(Named(p)) ==> Named(p)
  {
    hide Panel.Valid, Protocol.Linked, Protocol.Running, Protocol.Idle, Protocol.Inv;
    hide ConfigStore.Store.Valid, ConfigStore.Store.Effective, NameOf;
    NameAborts(p.io.trace, p.active);
    p.Abort();
  }

  method Give(p: Protocol)
    requires p.Valid()
    modifies p, p.io, p.io.epd, p.config
    ensures p.Valid() && old(p.io.trace) <= p.io.trace
    ensures old(Named(p)) ==> Named(p)
  {
    hide Panel.Valid, Protocol.Linked, Protocol.Running, Protocol.Idle, Protocol.Inv;
    hide ConfigStore.Store.Valid, ConfigStore.Store.Effective, NameOf;
    NameAborts(p.io.trace, p.active);
    p.Drop();
  }

  lemma Meaning(p: Protocol)
    requires p.Valid()
    ensures OnlyWholeImages(p.io.trace) && OnlyOnNamedImages(p.io.trace)
    ensures Timeline(p.io.trace, p.io.marks, p.io.epd.bus) && Disciplined(p.io.epd.bus)
    ensures p.received <= p.expected && !(p.active && p.config.Writing())
    ensures p.displayedEtag != 0 ==> var last := LastEnd(p.io.trace);
              last.Some? && last.value.Finished? && last.value.ok && last.value.etag == p.displayedEtag
  {
    hide Fold, OpenSince, OnlyWholeImages, OnlyOnNamedImages, LastEnd, Flatten, ConfigStore.Store.Valid,
        ConfigStore.Store.Effective;
    hide Timeline, Disciplined, Ready, Carries;
    p.io.FoldIsState();
    p.io.BusIsSound();
    SoundRecord(p.io.trace);
    ShownIsLastEnd(p.io.trace);
  }
}
