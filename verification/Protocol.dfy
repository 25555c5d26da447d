/** The transfer protocol of src/protocol.c: direct, partial and PIPE image transfers, and the
    configuration commands beside them. */
module Protocol {
  import opened Bytes
  import opened Epd
  import opened Frames
  import opened PanelIo
  import ConfigStore
  import Container
  import Flash
  import Slots

  const DIRECT_MAX := 230
  const CONFIG_CHUNK := 200

  /** What the client has sent of an open transfer: raw image bytes, or a zlib stream. */
  function Fed(s: Session): bytes
    requires s.Open?
  {
    if s.zip.Raw? then s.written else s.zip.fed
  }

  // ----- moving data

  predicate DataOnly(moved: seq<Event>) {
    forall e :: e in moved ==> e.Wrote? || e.Pushed? || e.Polled?
  }

  /** A compressed piece went through: the last poll reported the end of the stream, or, before the
      client's last piece, that all input is used up; and its output, if any, was written. */
  predicate Satisfied(moved: seq<Event>, last: bool) {
    moved != [] &&
    var n := |moved| - 1;
    match moved[n]
    case Polled(out, status) => out == [] && Enough(status, last)
    case Wrote(_, ok) => ok && n > 0 && moved[n - 1].Polled? && Enough(moved[n - 1].status, last)
    case _ => false
  }

  predicate Enough(status: Status, last: bool) {
    status.Done? || (status.NeedsInput? && !last)
  }

  /** What the inflater yielded. */
  function Inflated(trace: seq<Event>): bytes {
    if trace == [] then []
    else
      var e := trace[|trace| - 1];
      Inflated(trace[..|trace| - 1]) + if e.Polled? then e.out else []
  }

  /** Why a compressed piece did not go through: a call failed, the stream yields more than there is
      room for, or it asks for more after the client's last piece. */
  predicate Stuck(moved: seq<Event>, last: bool, room: int) {
    moved != [] &&
    var n := |moved| - 1;
    match moved[n]
    case Pushed(_, _, ok) => !ok
    case Polled(out, status) => status.Failed? || |Inflated(moved)| > room || (last && Hungry(moved[n]))
    case Wrote(_, ok) => !ok || (last && n > 0 && Hungry(moved[n - 1]))
    case _ => false
  }

  predicate Hungry(e: Event) {
    e.Polled? && e.status.NeedsInput?
  }

  /** What a piece moved, with this much room left, and whether it went through: a raw one is written
      once if it fits, a compressed one is pushed and all its output is written, unless there is a
      reason to stop. */
  predicate Streamed(zip: bool, data: bytes, last: bool, room: int, moved: seq<Event>, ok: bool) {
    DataOnly(moved) &&
    if zip then
      && moved != [] && moved[0].Pushed? && moved[0].data == data && moved[0].last == last
      && (ok <==> Satisfied(moved, last))
      && if ok then Inflated(moved) == Data(moved) else Stuck(moved, last, room)
    else
      && moved == (if |data| <= room && data != [] then [Wrote(data, ok)] else [])
      && (|data| > room ==> !ok) && (data == [] && room >= 0 ==> ok)
  }

  lemma PushAlone(data: bytes, last: bool, ok: bool)
    ensures var moved := [Pushed(data, last, ok)];
            !Satisfied(moved, last) && DataOnly(moved) && Data(moved) == Inflated(moved) == []
            && (!ok ==> forall room: int :: Stuck(moved, last, room))
  {
    assert [Pushed(data, last, ok)][..0] == [];
  }

  lemma WriteAlone(data: bytes, ok: bool)
    ensures Data([Wrote(data, ok)]) == if ok then data else []
  {
    assert [Wrote(data, ok)][..0] == [];
  }

  lemma NoData()
    ensures Data([]) == []
  {
  }

  lemma DataSnoc(a: seq<Event>, e: Event)
    ensures Data(a + [e]) == Data(a) + if e.Wrote? && e.ok then e.data else []
  {
    assert (a + [e])[..|a|] == a;
  }

  lemma {:induction false} DataConcat(a: seq<Event>, b: seq<Event>)
    ensures Data(a + b) == Data(a) + Data(b)
  {
    hide Data;
    if b == [] {
      NoData();
      assert a + b == a;
    } else {
      var rest, e := b[..|b| - 1], b[|b| - 1];
      DataConcat(a, rest);
      DataSnoc(a + rest, e);
      DataSnoc(rest, e);
      assert b == rest + [e] && a + b == a + rest + [e];
    }
  }

  lemma InflatedSnoc(a: seq<Event>, e: Event)
    ensures Inflated([]) == [] && Inflated(a + [e]) == Inflated(a) + if e.Polled? then e.out else []
  {
    assert (a + [e])[..|a|] == a;
  }

  lemma {:induction false} InflatedConcat(a: seq<Event>, b: seq<Event>)
    ensures Inflated(a + b) == Inflated(a) + Inflated(b)
  {
    hide Inflated;
    if b == [] {
      InflatedSnoc(a, Rebooted);
      assert a + b == a;
    } else {
      var rest, e := b[..|b| - 1], b[|b| - 1];
      InflatedConcat(a, rest);
      InflatedSnoc(a + rest, e);
      InflatedSnoc(rest, e);
      assert b == rest + [e] && a + b == a + rest + [e];
    }
  }

  /** A reason to stop in what is left is one for the whole piece. */
  lemma StuckTail(a: seq<Event>, b: seq<Event>, last: bool, room: int)
    requires b != [] && b[0].Polled? && Stuck(b, last, room - |Inflated(a)|)
    ensures Stuck(a + b, last, room)
  {
    hide Inflated;
    var n := |b| - 1;
    InflatedConcat(a, b);
    assert (a + b)[|a| + n] == b[n] && (n > 0 ==> (a + b)[|a| + n - 1] == b[n - 1]);
  }

  /** Whether a piece went through shows from its last poll on. */
  lemma SatisfiedTail(a: seq<Event>, b: seq<Event>, last: bool)
    requires b != [] && b[0].Polled?
    ensures Satisfied(a + b, last) == Satisfied(b, last)
  {
    var n := |b| - 1;
    assert (a + b)[|a| + n] == b[n] && (n > 0 ==> (a + b)[|a| + n - 1] == b[n - 1]);
  }

  lemma DataMoved(zip: bool, data: bytes, last: bool, room: int, moved: seq<Event>, ok: bool)
    requires Streamed(zip, data, last, room, moved, ok)
    ensures DataOnly(moved)
  {
  }

  /** Every refresh recorded since then showed the image of this transfer. */
  ghost predicate RefreshShows(trace: seq<Event>, from: nat, s: Session) {
    forall i :: from <= i < |trace| && trace[i].Finished? ==>
        Fold(trace[..i]).Some? && Fold(trace[..i]).value.session == s
  }

  lemma ShowsSince(trace: seq<Event>, from: seq<Event>, moved: seq<Event>, s: Session)
    requires from + moved <= trace && DataOnly(moved) && RefreshShows(trace, |from + moved|, s)
    ensures RefreshShows(trace, |from|, s)
  {
    hide Fold;
    forall i | |from| <= i < |from + moved|
      ensures !trace[i].Finished?
    {
      assert trace[i] == moved[i - |from|] && moved[i - |from|] in moved;
    }
  }

  lemma ShownOnce(trace: seq<Event>, from: seq<Event>, s: State, shown: Event, told: Event)
    requires Fold(from) == Some(s) && trace == from + [shown, told] && !told.Finished?
    ensures RefreshShows(trace, |from|, s.session)
  {
    hide Fold;
    assert trace[..|from|] == from;
  }

  /** How the four calls at the end of a transfer turned out. */
  datatype Answers = Answers(sacked: bool, replied: bool, refreshed: bool, told: bool)

  predicate Refreshes(pipe: bool, a: Answers) {
    (pipe ==> a.sacked) && a.replied
  }

  /** The answers to a complete transfer before its refresh. */
  function Announced(pipe: bool, sack: bytes, cmd: byte, sacked: bool, replied: bool): seq<Event> {
    (if pipe then [Sent(sack, sacked)] else [])
    + if pipe && !sacked then [] else [Sent(Reply(cmd, true), replied)]
  }

  /** The end of a complete transfer: acknowledge, then refresh and report; an acknowledgement that
      cannot be sent drops the image. */
  function FinishEvents(pipe: bool, sack: bytes, cmd: byte, mode: byte, etag: nat, a: Answers): seq<Event> {
    Announced(pipe, sack, cmd, a.sacked, a.replied)
    + if Refreshes(pipe, a)
      then [Finished(mode, etag, a.refreshed), Sent(Reply(if a.refreshed then 0x73 else 0x74, true), a.told)]
      else [Aborted]
  }

  /** The end of an incomplete one; a PIPE END still acknowledges an open PIPE transfer. */
  function RefuseEvents(active: bool, pipe: bool, sack: bytes, cmd: byte, a: Answers): seq<Event> {
    var acknowledge := cmd == 0x82 && active && pipe;
    (if acknowledge then [Sent(sack, a.sacked)] else [])
    + (if active then [Aborted] else [])
    + if acknowledge && !a.sacked then [] else [Sent(Reply(cmd, false), a.told)]
  }

  /** How an END went: whether the image was shown, what flushing the stream moved and whether that
      went through, the transfer after it, and the answers after that. */
  datatype Ending = Ending(shown: bool, moved: seq<Event>, flushed: bool, image: Session, answers: Answers)

  /** The name of the image on the panel after an END. */
  function EndName(b: Snapshot, payload: bytes, e: Ending): nat {
    if !e.shown then NamedBase(b)
    else if Refreshes(b.pipe, e.answers) && e.answers.refreshed then EndEtag(b.newEtag, payload)
    else 0
  }

  function Aborts(active: bool): seq<Event> {
    if active then [Aborted] else []
  }

  /** An END of the right kind for the open transfer, with a refresh mode it has. */
  predicate EndFits(active: bool, pipe: bool, partial: bool, cmd: byte, payload: bytes) {
    && active && pipe == (cmd == 0x82)
    && if payload == [] then partial && pipe
       else (|payload| == 1 || |payload| == 5) && payload[0] <= if partial then 2 else 1
  }

  function EndMode(payload: bytes): byte {
    if payload == [] then 2 else payload[0]
  }

  /** The name of the new image: the END's, or the one the transfer started with. */
  function EndEtag(newEtag: nat, payload: bytes): nat {
    if |payload| == 5 then Be(payload[1..5]) else newEtag
  }

  /** What an END names the image: what the four bytes behind its mode say, if they are there, most
      significant byte first. */
  lemma EndBytes(newEtag: nat, payload: bytes)
    ensures |payload| == 5 ==>
      && EndEtag(newEtag, payload) == Be(payload[1..5])
      && EndEtag(newEtag, payload) == 0x100_0000 * Val(payload[1]) + 0x1_0000 * Val(payload[2])
                                      + 0x100 * Val(payload[3]) + Val(payload[4])
    ensures |payload| != 5 ==> EndEtag(newEtag, payload) == newEtag
  {
    hide Be, Val;
    if |payload| == 5 {
      assert payload[1..5] == [payload[1], payload[2], payload[3], payload[4]];
      Digits(payload[1], payload[2], payload[3], payload[4]);
    }
  }

  /** Which END fits: 72 a direct transfer and 82 a PIPE one, with mode 0 or 1, for a region 2 as well,
      alone or before a name; the END of a PIPE region may be bare, and means mode 2. */
  lemma EndForms(active: bool, pipe: bool, partial: bool, cmd: byte, payload: bytes)
    ensures EndFits(active, pipe, partial, cmd, payload) <==>
      && active && pipe == (cmd == 0x82)
      && ((payload == [] && partial && pipe)
          || ((|payload| == 1 || |payload| == 5) && (payload[0] in {0, 1} || (payload[0] == 2 && partial))))
    ensures EndMode(payload) == if payload == [] then 2 else payload[0]
  {
  }

  /** A frame number the sender may still be repeating: one of the last 33 accepted. */
  predicate Recent(nextSeq: nat, pipeFrames: nat, number: nat) {
    var behind := (nextSeq + TWO_8 - number) % TWO_8;
    1 <= behind <= 33 && behind <= pipeFrames
  }

  predicate FrameFits(pipeFrame: nat, payload: bytes) {
    2 <= |payload| && |payload| + 2 <= pipeFrame
  }

  /** What a command starts from. */
  datatype Snapshot = Snapshot(active: bool, pipe: bool, pipeFailed: bool, compressed: bool, partial: bool,
                               received: nat, expected: nat, displayedEtag: nat, newEtag: nat,
                               pipeFrame: nat, nextSeq: nat, pipeFrames: nat,
                               frames: seq<bytes>, trace: seq<Event>)

  /** The etag a region may be based on once an open transfer has been dropped. */
  function NamedBase(b: Snapshot): nat {
    if b.active then 0 else b.displayedEtag
  }

  /** The fields at rest, with this name for the image on the panel. */
  function Rested(b: Snapshot, etag: nat, trace: seq<Event>): Snapshot {
    b.(active := false, pipe := false, pipeFailed := false, compressed := false, partial := false, received := 0,
    expected := FRAME_BYTES, displayedEtag := etag, newEtag := 0, nextSeq := 0, pipeFrames := 0, frames := [],
    trace := trace)
  }

  // ----- what a start does

  /** How a start went: whether the panel began, what the data sent along moved, and the result. */
  datatype Started = Started(began: bool, moved: seq<Event>, accepted: bool)

  function Resets(zip: bool, size: nat): seq<Event> {
    if zip then [PanelIo.Reset(size)] else []
  }

  predicate WholeStart(payload: bytes) {
    payload == [] || (4 <= |payload| <= CONFIG_CHUNK && Le(payload[..4]) == FRAME_BYTES)
  }

  /** Everything a direct start does to the outside: a well-formed one is accepted exactly when the
      panel opens and the data sent along goes through. */
  ghost predicate DirectStarted(b: Snapshot, trace: seq<Event>, payload: bytes, r: Started, ok: bool) {
    var t := b.trace + Aborts(b.active);
    if !WholeStart(payload) then !r.accepted && trace == t + [Sent(Reply(0x70, false), ok)]
    else if !r.began then !r.accepted && trace == t + [Begun(false)] + [Sent(Reply(0x70, false), ok)]
    else
      && (if payload == [] then r.accepted && r.moved == []
          else Streamed(true, payload[4..], false, FRAME_BYTES, r.moved, r.accepted))
      && trace == t + [Begun(true)] + Resets(payload != [], FRAME_BYTES) + r.moved + Aborts(!r.accepted)
                  + [Sent(Reply(0x70, r.accepted), ok)]
  }

  /** The fields after a direct start. Data that does not go through costs the image its name. */
  function DirectAfter(b: Snapshot, payload: bytes, r: Started, trace: seq<Event>): Snapshot {
    var rest := Rested(b, if WholeStart(payload) && r.began && !r.accepted then 0 else NamedBase(b), trace);
    if !r.accepted then rest
    else
      rest.(active := true, compressed := payload != [], received := |Data(r.moved)|,
      frames := if |payload| < 4 then [] else [payload[4..]])
  }

  /** Why a region is refused: 1 another image is shown, 3 it leaves the panel, 4 not byte aligned. */
  function RegionRefusal(base: nat, shown: nat, x: nat, y: nat, w: nat, h: nat): (code: byte)
    ensures code == 0 ==> LegalRegion(x, y, w, h) && base == shown != 0
  {
    if base == 0 || base != shown then 1
    else if w == 0 || h == 0 || x + w > WIDTH || y + h > HEIGHT then 3
    else if x % 8 != 0 || w % 8 != 0 then 4
    else 0
  }

  function PartialRefusal(payload: bytes, shown: nat): byte {
    if |payload| < 17 then 6
    else if payload[0] != 0 && payload[0] != 1 then 5
    else if Be(payload[5..9]) == 0 then 1
    else
      RegionRefusal(Be(payload[1..5]), shown, Be(payload[9..11]), Be(payload[11..13]),
                    Be(payload[13..15]), Be(payload[15..17]))
  }

  function PartialWindow(payload: bytes, began: bool): Event
    requires |payload| >= 17
  {
    Windowed(Be(payload[1..5]), Be(payload[9..11]), Be(payload[11..13]), Be(payload[13..15]),
             Be(payload[15..17]), began)
  }

  /** The bytes of both planes of a region. */
  function RegionBytes(w: nat, h: nat): nat {
    PlaneSize(w, h) * 2
  }

  /** Everything a partial start does to the outside. */
  ghost predicate PartialStarted(b: Snapshot, trace: seq<Event>, payload: bytes, r: Started, ok: bool) {
    var t, refusal := b.trace + Aborts(b.active), PartialRefusal(payload, NamedBase(b));
    if refusal != 0 then !r.accepted && trace == t + [Sent(ErrorReply(0x76, refusal), ok)]
    else if |payload| < 17 then false
    else if !r.began then !r.accepted && trace == t + [PartialWindow(payload, false)] + [Sent(ErrorReply(0x76, 6), ok)]
    else
      var size := RegionBytes(Be(payload[13..15]), Be(payload[15..17]));
      && Streamed(payload[0] == 1, payload[17..], false, size, r.moved, r.accepted)
      && trace == t + [PartialWindow(payload, true)] + Resets(payload[0] == 1, size) + r.moved + Aborts(!r.accepted)
                  + [Sent(if r.accepted then Reply(0x76, true) else ErrorReply(0x76, 6), ok)]
  }

  /** The fields after a partial start: only one refused for its length or flags keeps the name of the
      image. */
  function PartialAfter(b: Snapshot, payload: bytes, r: Started, trace: seq<Event>): Snapshot {
    var kept := r.accepted || |payload| < 17 || (payload[0] != 0 && payload[0] != 1);
    var rest := Rested(b, if kept then NamedBase(b) else 0, trace);
    if !r.accepted || |payload| < 17 then rest
    else
      rest.(active := true, partial := true, compressed := payload[0] == 1, received := |Data(r.moved)|,
      expected := RegionBytes(Be(payload[13..15]), Be(payload[15..17])), newEtag := Be(payload[5..9]),
      frames := [payload[17..]])
  }

  /** The checks of a PIPE start that need no state: 0 when it is well formed. */
  function PipeRefusal(payload: bytes): (code: byte)
    ensures code == 0 <==>
      && |payload| == (if |payload| > 1 && payload[1] & 2 != 0 then 22 else 10)
      && payload[0] == 1 && payload[1] <= 3 && payload[2] != 0 && payload[3] != 0 && Le(payload[4..6]) >= 4
      && Le(payload[6..10]) ==
          if |payload| == 22 then RegionBytes(Le(payload[18..20]), Le(payload[20..22])) else FRAME_BYTES
  {
    hide Le;
    if |payload| < 10 || payload[0] != 1 || payload[2] == 0 || payload[3] == 0 || Le(payload[4..6]) < 4 then 1
    else if payload[1] & 0xfc != 0 then 2
    else if |payload| != (if payload[1] & 2 != 0 then 22 else 10) then 1
    else if payload[1] & 2 != 0 then
      if Le(payload[6..10]) != RegionBytes(Le(payload[18..20]), Le(payload[20..22])) then 3 else 0
    else if Le(payload[6..10]) != FRAME_BYTES then 3
    else 0
  }

  function PipeRegionRefusal(payload: bytes, shown: nat): byte
    requires |payload| == 22
  {
    RegionRefusal(Le(payload[10..14]), shown, Le(payload[14..16]), Le(payload[16..18]),
                  Le(payload[18..20]), Le(payload[20..22]))
  }

  /** What opens the panel for a PIPE transfer. */
  function PipeOpening(payload: bytes, began: bool): Event {
    if |payload| != 22 then Begun(began)
    else
      Windowed(Le(payload[10..14]), Le(payload[14..16]), Le(payload[16..18]), Le(payload[18..20]),
               Le(payload[20..22]), began)
  }

  /** The largest frame that may follow: what the client asks for, at most ours. */
  function PipeFrame(payload: bytes): nat
    requires |payload| >= 6
  {
    if Le(payload[4..6]) > MAX_FRAME then MAX_FRAME else Le(payload[4..6])
  }

  function PipeAccept(frame: nat, partial: bool): bytes {
    [0x00, 0x80, 1, 1, 1] + LeBytes(frame, 2) + [if partial then 3 else 1]
  }

  /** Everything a PIPE start does to the outside: a well-formed one on the right image is accepted
      exactly when the panel opens. */
  ghost predicate PipeStarted(b: Snapshot, trace: seq<Event>, payload: bytes, r: Started, ok: bool) {
    var t, head := b.trace + Aborts(b.active), PipeRefusal(payload);
    if head != 0 then !r.accepted && trace == t + [Sent(ErrorReply(0x80, head), ok)]
    else
      var code := if |payload| == 22 then PipeRegionRefusal(payload, NamedBase(b)) else 0;
      if code != 0 then !r.accepted && trace == t + [Sent(ErrorReply(0x80, if code == 1 then 5 else 7), ok)]
      else if !r.began then
        !r.accepted && trace == t + [PipeOpening(payload, false)]
            + [Sent(ErrorReply(0x80, if |payload| == 22 then 7 else 3), ok)]
      else
        && r.accepted
        && trace == t + [PipeOpening(payload, true)] + Resets(payload[1] & 1 != 0, Le(payload[6..10]))
                    + [Sent(PipeAccept(PipeFrame(payload), |payload| == 22), ok)]
  }

  /** The fields after a PIPE start: a region that is refused or does not open costs the image its
      name. */
  function PipeAfter(b: Snapshot, payload: bytes, r: Started, trace: seq<Event>): Snapshot {
    var kept := r.accepted || PipeRefusal(payload) != 0 || |payload| != 22;
    var rest := Rested(b, if kept then NamedBase(b) else 0, trace);
    if !r.accepted || |payload| < 10 then rest
    else
      rest.(active := true, pipe := true, partial := |payload| == 22, compressed := payload[1] & 1 != 0,
      expected := Le(payload[6..10]), pipeFrame := PipeFrame(payload))
  }

  /** The frame that is due, for a transfer that takes it. */
  predicate Due(b: Snapshot, payload: bytes) {
    FrameFits(b.pipeFrame, payload) && Val(payload[0]) == b.nextSeq
  }

  /** It brings the last byte of a raw full image. */
  predicate BringsAll(b: Snapshot, payload: bytes) {
    !b.compressed && !b.partial && b.received + |payload| - 1 == b.expected
  }

  /** How a PIPE frame fared, and what it moved. */
  datatype Outcome =
    | Ignored
    | Duplicate
    | Accepted(moved: seq<Event>)
    | Completed(moved: seq<Event>, image: Session, answers: Answers)
    | Rejected(error: byte, moved: seq<Event>)

  // ----- what a configuration command does

  /** The store as the configuration commands see it: the open transaction, if any, the configuration
      in force, and how many flash calls have failed. */
  datatype ConfigShot = ConfigShot(writing: bool, open: bytes, expected: nat, effective: bytes, faults: nat)

  function Settled(effective: bytes, faults: nat): ConfigShot {
    ConfigShot(false, [], 0, effective, faults)
  }

  /** A refused command forgets the open transaction and leaves the configuration in force. */
  predicate GivenUp(b: ConfigShot, a: ConfigShot) {
    a == Settled(b.effective, a.faults) && b.faults <= a.faults
  }

  /** A configuration start is accepted exactly when flash works and it is the first 200 bytes of a
      longer configuration that fits a slot, or a whole acceptable one; a whole one is then in force. */
  ghost predicate ConfigStarted(b: ConfigShot, a: ConfigShot, payload: bytes, accepted: bool) {
    if |payload| == 2 + CONFIG_CHUNK then
      var total := Le(payload[..2]);
      && (accepted <==> CONFIG_CHUNK < total <= Container.CONFIG_MAX && a.faults == b.faults)
      && if accepted then a == ConfigShot(true, payload[2..], total, b.effective, b.faults) else GivenUp(b, a)
    else
      && (accepted <==> 5 <= |payload| <= CONFIG_CHUNK && Slots.Acceptable(payload) && a.faults == b.faults)
      && if accepted then a == Settled(Slots.Installed(payload), b.faults) else GivenUp(b, a)
  }

  /** A further chunk is accepted exactly when a transaction is open that it fits, flash works, and
      the configuration it completes, if it does, is acceptable; a complete one is then in force. */
  ghost predicate ConfigGrown(b: ConfigShot, a: ConfigShot, payload: bytes, accepted: bool) {
    var full := b.open + payload;
    var fits := b.writing && payload != [] && |payload| <= CONFIG_CHUNK && |full| <= b.expected <= Container.CONFIG_MAX;
    && (accepted <==> fits && (|full| == b.expected ==> Slots.Acceptable(full)) && a.faults == b.faults)
    && if !accepted then GivenUp(b, a)
       else if |full| < b.expected then a == b.(open := full)
       else a == Settled(Slots.Installed(full), b.faults)
  }

  /** A clear without a payload is accepted exactly when flash works, and puts the built-in
      configuration in force; with one it does nothing. */
  ghost predicate ConfigCleared(b: ConfigShot, a: ConfigShot, payload: bytes, accepted: bool) {
    if payload != [] then !accepted && a == b
    else
      && (accepted <==> a.faults == b.faults)
      && if accepted then a == Settled(Slots.Installed([]), b.faults) else GivenUp(b, a)
  }

  ghost predicate LastSent(trace: seq<Event>, data: bytes, ok: bool) {
    trace != [] && trace[|trace| - 1] == Sent(data, ok)
  }

  /** The advertised data, sampled afresh, or a refusal. */
  ghost predicate MsdTold(from: seq<Event>, trace: seq<Event>, payload: bytes, sampled: Option<bytes>, ok: bool) {
    && (sampled.Some? ==> payload == [] && |sampled.value| == 16)
    && trace == from + (if payload == [] then [Sampled(sampled.Some?)] else [])
         + [Sent(match sampled case Some(msd) => [0x00, 0x44] + msd case None => Reply(0x44, false), ok)]
  }

  function AllSent(replies: seq<bytes>): seq<Event> {
    seq(|replies|, i requires 0 <= i < |replies| => Sent(replies[i], true))
  }

  lemma NoneSent()
    ensures AllSent([]) == []
  {
  }

  lemma OneMoreSent(sent: seq<bytes>, r: bytes)
    ensures AllSent(sent + [r]) == AllSent(sent) + [Sent(r, true)]
  {
  }

  lemma SentSoFar(sent: seq<bytes>, rest: seq<bytes>)
    requires rest != []
    ensures var all := sent + rest;
            all[|sent|] == rest[0] && all[..|sent|] == sent && all == sent + [rest[0]] + rest[1..]
  {
  }

  lemma OneMoreReply(trace: seq<Event>, from: seq<Event>, sent: seq<bytes>, rest: seq<bytes>)
    requires rest != [] && trace == from + AllSent(sent) + [Sent(rest[0], true)]
    ensures sent + [rest[0]] + rest[1..] == sent + rest && trace == from + AllSent(sent + [rest[0]])
  {
    hide AllSent;
    SentSoFar(sent, rest);
    OneMoreSent(sent, rest[0]);
  }

  /** The first n replies went out, and then all was done or the next one failed. */
  ghost predicate SentReplies(trace: seq<Event>, from: seq<Event>, replies: seq<bytes>, n: nat, ok: bool) {
    n <= |replies| && (ok <==> n == |replies|)
    && trace == from + AllSent(replies[..n]) + if ok then [] else [Sent(replies[n], false)]
  }

  lemma RepliesGrow(trace: seq<Event>, from: seq<Event>, replies: seq<bytes>, n: nat, ok: bool)
    requires SentReplies(trace, from, replies, n, ok)
    ensures from <= trace
  {
    hide AllSent;
  }

  lemma StoppedAt(trace: seq<Event>, from: seq<Event>, sent: seq<bytes>, rest: seq<bytes>)
    requires rest != [] && trace == from + AllSent(sent) + [Sent(rest[0], false)]
    ensures SentReplies(trace, from, sent + rest, |sent|, false)
  {
    hide AllSent;
    SentSoFar(sent, rest);
  }

  lemma SentWhole(trace: seq<Event>, from: seq<Event>, sent: seq<bytes>)
    requires trace == from + AllSent(sent)
    ensures SentReplies(trace, from, sent, |sent|, true)
  {
    hide AllSent;
    assert sent[..|sent|] == sent;
  }

  lemma DirectGrows(b: Snapshot, trace: seq<Event>, payload: bytes, r: Started, ok: bool)
    requires DirectStarted(b, trace, payload, r, ok)
    ensures b.trace <= trace
  {
    hide Streamed, Le;
  }

  lemma PartialGrows(b: Snapshot, trace: seq<Event>, payload: bytes, r: Started, ok: bool)
    requires PartialStarted(b, trace, payload, r, ok)
    ensures b.trace <= trace
  {
    hide Streamed, Be, RegionRefusal, RegionBytes;
  }

  lemma PipeGrows(b: Snapshot, trace: seq<Event>, payload: bytes, r: Started, ok: bool)
    requires PipeStarted(b, trace, payload, r, ok)
    ensures b.trace <= trace
  {
    hide Le, RegionRefusal, RegionBytes, PipeAccept;
  }

  /** One more piece that went through. */
  ghost function Grown(b: Snapshot, data: bytes, moved: seq<Event>, trace: seq<Event>): Snapshot {
    b.(received := b.received + |Data(moved)|, frames := b.frames + [data], trace := trace)
  }

  /** Everything a direct DATA does: it is accepted exactly when such a transfer is open and the
      data goes through; anything else drops the transfer. */
  ghost predicate DirectDone(b: Snapshot, a: Snapshot, payload: bytes, moved: seq<Event>, accepted: bool, ok: bool) {
    && a == (if accepted then Grown(b, payload, moved, a.trace) else Rested(b, NamedBase(b), a.trace))
    && if !b.active || b.pipe || payload == [] || |payload| > DIRECT_MAX then
         !accepted && a.trace == b.trace + Aborts(b.active) + [Sent(Reply(0x71, false), ok)]
       else
         && Streamed(b.compressed, payload, false, b.expected - b.received, moved, accepted)
         && a.trace == b.trace + moved + Aborts(!accepted) + [Sent(Reply(0x71, accepted), ok)]
  }

  /** Everything an END does: it shows the image exactly when it fits the open transfer, flushing the
      stream goes through and every byte is there. What is shown is what the client sent, and the
      name kept is the new one exactly when it was refreshed. */
  ghost predicate EndDone(b: Snapshot, a: Snapshot, cmd: byte, payload: bytes, e: Ending, ok: bool) {
    var fits, sack := EndFits(b.active, b.pipe, b.partial, cmd, payload), SackFrame(0, b.nextSeq, b.pipeFrames);
    && a == Rested(b, EndName(b, payload, e), a.trace)
    && ok == (if e.shown then Refreshes(b.pipe, e.answers) && e.answers.told else e.answers.sacked && e.answers.told)
    && (if fits then Streamed(b.compressed, [], true, b.expected - b.received, e.moved, e.flushed)
        else e.moved == [] && !e.flushed)
    && (e.shown <==> fits && e.flushed && b.received + |Data(e.moved)| == b.expected)
    && a.trace == b.trace + e.moved +
         (if e.shown then FinishEvents(b.pipe, sack, cmd, EndMode(payload), EndEtag(b.newEtag, payload), e.answers)
          else RefuseEvents(b.active, b.pipe, sack, cmd, e.answers))
    && (e.shown ==>
          && e.image.Open? && Complete(e.image) && e.image.expected == b.expected
          && e.image.zip.Inflating? == b.compressed
          && Fed(e.image) == Flatten(b.frames) && RefreshShows(a.trace, |b.trace|, e.image))
  }

  /** Everything a PIPE frame does. Without an open transfer of that kind, and after a failure, it
      is ignored; a repeated recent one is only acknowledged; the one that is due is taken exactly
      if its data goes through, and shows a raw full image it completes; anything else fails the
      transfer. */
  ghost predicate FrameDone(b: Snapshot, a: Snapshot, payload: bytes, o: Outcome, ok: bool) {
    var listening, room := b.active && b.pipe && !b.pipeFailed, b.expected - b.received;
    match o
    case Ignored => !listening && ok && a == b
    case Duplicate =>
      && listening && FrameFits(b.pipeFrame, payload) && !Due(b, payload)
      && Recent(b.nextSeq, b.pipeFrames, Val(payload[0]))
      && a == b.(trace := a.trace)
      && a.trace == b.trace + [Sent(SackFrame(0, a.nextSeq, a.pipeFrames), ok)]
    case Accepted(moved) =>
      && listening && Due(b, payload) && !BringsAll(b, payload)
      && Streamed(b.compressed, payload[1..], false, room, moved, true)
      && a == Grown(b, payload[1..], moved, a.trace).(nextSeq := (b.nextSeq + 1) % TWO_8,
                                                       pipeFrames := (b.pipeFrames + 1) % TWO_32)
      && a.trace == b.trace + moved + [Sent(SackFrame(0, a.nextSeq, a.pipeFrames), ok)]
    case Completed(moved, image, answers) =>
      && listening && Due(b, payload) && BringsAll(b, payload)
      && a == Rested(b, 0, a.trace) && ok == (Refreshes(true, answers) && answers.told)
      && Streamed(false, payload[1..], false, room, moved, true)
      && image.Open? && image.zip.Raw? && Complete(image) && image.expected == b.expected
      && image.written == Flatten(b.frames + [payload[1..]]) && RefreshShows(a.trace, |b.trace|, image)
      && a.trace == b.trace + moved
           + FinishEvents(true, SackFrame(0, (b.nextSeq + 1) % TWO_8, (b.pipeFrames + 1) % TWO_32), 0x82, 0, 0, answers)
    case Rejected(error, moved) =>
      && listening && a == Rested(b, 0, a.trace).(pipeFailed := true)
      && (if Due(b, payload) then
            && Streamed(b.compressed, payload[1..], false, room, moved, false)
            && error == if b.compressed then 2 else 3
          else
            && !(FrameFits(b.pipeFrame, payload) && Recent(b.nextSeq, b.pipeFrames, Val(payload[0])))
            && moved == [] && error == 4)
      && a.trace == b.trace + moved + [Sent(SackFrame(error, b.nextSeq, b.pipeFrames), ok), Aborted]
  }

  /** Firmware version, absence of authentication, power commands, NFC; anything else is refused. */
  function InfoReply(sha: bytes, cmd: byte, payload: bytes): bytes {
    match cmd
    case 0x43 => if payload != [] then Reply(cmd, false) else [0x00, 0x43, 0, 5, ToByte(|sha| % TWO_8)] + sha + [0]
    case 0x50 => [0x00, 0x50, 3]
    case 0x52 => [0xff, 0x52, 0, 0]
    case 0x53 => [0xff, 0x53, 0, 0]
    case 0x83 => [0xff, 0x83, 0xff, if payload != [] && payload[0] != 0 then 3 else 2]
    case _ => Reply(cmd, false)
  }

  /** A command that may drop the transfer, and then says whether it was accepted. */
  ghost predicate Answered(b: Snapshot, a: Snapshot, aborts: bool, cmd: byte, accepted: bool, ok: bool) {
    a.trace == b.trace + Aborts(aborts) + [Sent(Reply(cmd, accepted), ok)]
  }

  /** What each command does to the transfer, and how it is answered. Commands outside the transfer
      and configuration groups leave the transfer alone. */
  ghost predicate Effect(sha: bytes, b: Snapshot, a: Snapshot, cmd: byte, payload: bytes, ok: bool) {
    match cmd
    case 0x70 => exists r: Started ::
      DirectStarted(b, a.trace, payload, r, ok) && a == DirectAfter(b, payload, r, a.trace)
    case 0x76 => exists r: Started ::
      PartialStarted(b, a.trace, payload, r, ok) && a == PartialAfter(b, payload, r, a.trace)
    case 0x80 => exists r: Started ::
      PipeStarted(b, a.trace, payload, r, ok) && a == PipeAfter(b, payload, r, a.trace)
    case 0x71 => exists moved, accepted :: DirectDone(b, a, payload, moved, accepted, ok)
    case 0x72 => exists e :: EndDone(b, a, cmd, payload, e, ok)
    case 0x82 => exists e :: EndDone(b, a, cmd, payload, e, ok)
    case 0x81 => exists o :: FrameDone(b, a, payload, o, ok)
    case 0x41 =>
      a == Rested(b, NamedBase(b), a.trace) && exists accepted :: Answered(b, a, b.active, cmd, accepted, ok)
    case 0x45 =>
      if payload != [] then a == b.(trace := a.trace) && Answered(b, a, false, cmd, false, ok)
      else a == Rested(b, NamedBase(b), a.trace) && exists accepted :: Answered(b, a, b.active, cmd, accepted, ok)
    case 0x42 => a == b.(trace := a.trace) && exists accepted :: Answered(b, a, false, cmd, accepted, ok)
    case 0x40 => a == b.(trace := a.trace)
    case 0x0f =>
      if payload != [] then a == b.(trace := a.trace) && Answered(b, a, false, cmd, false, ok)
      else ok && a == Rested(b, NamedBase(b), b.trace + Aborts(b.active) + [Rebooted])
    case 0x44 => a == b.(trace := a.trace) && exists sampled :: MsdTold(b.trace, a.trace, payload, sampled, ok)
    case _ => a == b.(trace := b.trace + [Sent(InfoReply(sha, cmd, payload), ok)])
  }

  /** What each command does to the configuration: a read sends the one in force, a start, chunk or
      clear does as it answers, the start of a transfer forgets an open upload, and anything else
      leaves it alone. */
  ghost predicate Stores(b: ConfigShot, a: ConfigShot, from: seq<Event>, trace: seq<Event>, cmd: byte, payload: bytes,
                         ok: bool)
  {
    match cmd
    case 0x40 =>
      && a == b
      && if payload != [] then trace == from + [Sent(Reply(cmd, false), ok)]
         else exists n: nat :: SentReplies(trace, from, ConfigReplies(b.effective, 0, 0), n, ok)
    case 0x41 => exists accepted ::
      LastSent(trace, Reply(cmd, accepted), ok) && ConfigStarted(b, a, payload, accepted)
    case 0x42 => exists accepted ::
      LastSent(trace, Reply(cmd, accepted), ok) && ConfigGrown(b, a, payload, accepted)
    case 0x45 => exists accepted ::
      LastSent(trace, Reply(cmd, accepted), ok) && ConfigCleared(b, a, payload, accepted)
    case _ => a == if cmd in {0x70, 0x76, 0x80} then Settled(b.effective, b.faults) else b
  }

  class Protocol {
    const io: Panel
    const config: ConfigStore.Store
    /** OD_BUILD_SHA. */
    const sha: bytes

    var active: bool
    var received: nat
    var expected: nat
    var displayedEtag: nat
    var newEtag: nat
    var pipeFrames: nat
    var pipeFrame: nat
    var nextSeq: nat
    var compressed: bool
    var zdone: bool
    var pipe: bool
    var pipeFailed: bool
    var partial: bool
    /** The pieces of the open transfer accepted so far. */
    ghost var frames: seq<bytes>

    /** The record is sound and knows whether a transfer is open; a named image is on the panel. */
    ghost predicate Linked()
      reads this, io, io.epd
    {
      && io.Valid()
      && (active <==> !io.state.session.Closed?)
      && (displayedEtag == 0 || displayedEtag == io.state.shown)
      && displayedEtag < TWO_32 && newEtag < TWO_32 && pipeFrames < TWO_32 && nextSeq < TWO_8
    }

    /** The fields describe the open transfer. */
    ghost predicate Streaming()
      reads this, io, io.epd
    {
      var s := io.state.session;
      && Linked() && s.Open?
      && partial == s.partial && received == |s.written| <= expected == s.expected <= 2 * FRAME_BYTES
      && compressed == s.zip.Inflating? && (compressed ==> s.zip.pending == [])
    }

    /** Exactly the accepted pieces, in order, went to the panel or the inflater. */
    ghost predicate Counted()
      requires io.state.session.Open?
      reads this, io
    {
      && Flatten(frames) == Fed(io.state.session)
      && (pipe ==> nextSeq == |frames| % TWO_8 && pipeFrames == |frames| % TWO_32 && [] !in frames)
      && (pipe ==> pipeFrame <= MAX_FRAME)
    }

    ghost predicate Running()
      reads this, io, io.epd
    {
      Streaming() && Counted() && (compressed ==> !io.state.session.zip.ended)
    }

    ghost predicate Idle()
      reads this, io, io.epd
    {
      && Linked() && !active && received == 0 && newEtag == 0 && pipeFrames == 0 && nextSeq == 0
      && !compressed && !zdone && !pipe && !partial && frames == []
    }

    ghost predicate Inv()
      reads this, io, io.epd
    {
      if active then Running() else Idle()
    }

    /** Between two commands. A display transfer and a configuration transfer are never both open. */
    ghost predicate Valid()
      reads this, io, io.epd, config, config.flash, config.flash.mem
    {
      Inv() && config.Valid() && !(active && config.Writing())
    }

    constructor (io: Panel, config: ConfigStore.Store, sha: bytes)
      requires io.Valid() && io.state == State(Closed, 0) && config.Valid()
      ensures this.io == io && this.config == config && this.sha == sha && Valid() && !active
    {
      this.io, this.config, this.sha := io, config, sha;
      active, received, expected, displayedEtag, newEtag, pipeFrames, pipeFrame, nextSeq :=
        false, 0, 0, 0, 0, 0, 0, 0;
      compressed, zdone, pipe, pipeFailed, partial, frames := false, false, false, false, false, [];
    }

    method Reset()
      modifies this
      ensures !zdone && Now() == Rested(old(Now()), displayedEtag, io.trace) && displayedEtag == old(displayedEtag)
    {
      active := false;
      ClearFlags();
      ClearCounters();
      frames := [];
    }

    method ClearCounters()
      modifies this`received, this`expected, this`newEtag, this`pipeFrames, this`nextSeq
      ensures received == newEtag == pipeFrames == nextSeq == 0 && expected == FRAME_BYTES
    {
      received, expected, newEtag, pipeFrames, nextSeq := 0, FRAME_BYTES, 0, 0, 0;
    }

    method ClearFlags()
      modifies this`compressed, this`zdone, this`pipe, this`pipeFailed, this`partial
      ensures !compressed && !zdone && !pipe && !pipeFailed && !partial
    {
      compressed, zdone, pipe, pipeFailed, partial := false, false, false, false, false;
    }

    /** od_abort: an image lost on the way leaves the panel's content unnamed. */
    method Abort()
      requires Linked() || Inv()
      modifies this, io, io.epd
      ensures Idle() && Inv() && io.trace == old(io.trace) + Aborts(old(active))
      ensures Now() == Rested(old(Now()), NamedBase(old(Now())), io.trace)
    {
      hide Panel.Valid, Step;
      if active {
        io.Abort();
        displayedEtag := 0;
      }
      Reset();
    }

    /** What a new transfer of any kind does first. */
    method Drop()
      requires (Linked() || Inv()) && config.Valid()
      modifies this, io, io.epd, config
      ensures Idle() && Inv() && io.trace == old(io.trace) + Aborts(old(active))
      ensures Now() == Rested(old(Now()), NamedBase(old(Now())), io.trace)
      ensures config.Valid() && !config.Writing() && config.Effective() == old(config.Effective())
    {
      hide Panel.Valid, Step, ConfigStore.Store.Valid, ConfigStore.Store.Effective, Linked;
      Abort();
      config.Cancel();
    }

    /** stream: raw bytes that fit go straight to the panel; a compressed piece is pushed, and
        whatever the inflater yields is written until it asks for more or reports the end. */
    method Stream(data: bytes, last: bool) returns (ok: bool, ghost moved: seq<Event>)
      requires Streaming() && (compressed ==> !io.state.session.zip.ended)
      modifies this`received, this`zdone, io, io.epd
      ensures Linked() && active && io.trace == old(io.trace) + moved
      ensures Streamed(compressed, data, last, old(expected - received), moved, ok)
      ensures ok ==> Streaming() && Fed(io.state.session) == old(Fed(io.state.session)) + data
      ensures ok ==> received == old(received) + |Data(moved)| && (!compressed ==> received == old(received) + |data|)
      ensures ok && compressed ==> var z := io.state.session.zip; z.ended == last && (last ==> z.done && zdone)
    {
      hide Panel.Valid, Satisfied, Data;
      if !compressed {
        ok, moved := StreamRaw(data);
      } else {
        ok, moved := StreamZip(data, last);
      }
    }

    method StreamRaw(data: bytes) returns (ok: bool, ghost moved: seq<Event>)
      requires Streaming() && !compressed
      modifies this`received, io, io.epd
      ensures Linked() && active && io.trace == old(io.trace) + moved
      ensures Streamed(false, data, true, old(expected - received), moved, ok)
      ensures ok ==> Streaming() && Fed(io.state.session) == old(Fed(io.state.session)) + data
      ensures ok ==> received == old(received) + |data| && Data(moved) == data
    {
      hide Panel.Valid, Data;
      moved := [];
      if |data| > expected - received {
        return false, moved;
      }
      ok := true;
      if data != [] {
        ok := io.Write(data);
        moved := [Wrote(data, ok)];
      }
      NoData();
      WriteAlone(data, true);
      if ok {
        received := received + |data|;
      }
    }

    method StreamZip(data: bytes, last: bool) returns (ok: bool, ghost moved: seq<Event>)
      requires Streaming() && compressed && !io.state.session.zip.ended
      modifies this`received, this`zdone, io, io.epd
      ensures Linked() && active && io.trace == old(io.trace) + moved
      ensures Streamed(true, data, last, old(expected - received), moved, ok)
      ensures ok ==> Streaming() && io.state.session.zip.fed == old(io.state.session.zip.fed) + data
      ensures ok ==> received == old(received) + |Data(moved)|
      ensures ok ==> var z := io.state.session.zip; z.ended == last && (last ==> z.done && zdone)
    {
      hide Panel.Valid, Satisfied, Stuck, Data, Inflated;
      ok := io.ZlibPush(data, last);
      moved := [Pushed(data, last, ok)];
      PushAlone(data, last, ok);
      if ok {
        ghost var more, room := [], expected - received;
        ok, more := Drain(last);
        DataConcat(moved, more);
        InflatedConcat(moved, more);
        SatisfiedTail(moved, more, last);
        if !ok {
          StuckTail(moved, more, last, room);
        }
        moved := moved + more;
      }
    }

    /** Poll and write until the inflater stops. */
    method Drain(last: bool) returns (ok: bool, ghost moved: seq<Event>)
      requires Streaming() && compressed && io.state.session.zip.ended == last
      modifies this`received, this`zdone, io, io.epd
      ensures Linked() && active && io.trace == old(io.trace) + moved
      ensures moved != [] && moved[0].Polled? && DataOnly(moved) && (ok <==> Satisfied(moved, last))
      ensures ok ==> Streaming() && io.state.session.zip.fed == old(io.state.session.zip.fed)
                     && io.state.session.zip.ended == last && (last ==> io.state.session.zip.done && zdone)
      ensures ok ==> received == old(received) + |Data(moved)| && Inflated(moved) == Data(moved)
      ensures !ok ==> Stuck(moved, last, old(expected - received))
    {
      hide Panel.Valid, Data, Inflated, Satisfied, Stuck, Step;
      ghost var fed, room := io.state.session.zip.fed, expected - received;
      moved := [];
      NoData();
      InflatedSnoc([], Rebooted);
      var more := true;
      ok := true;
      while more
        invariant Linked() && active && io.trace == old(io.trace) + moved && DataOnly(moved)
        invariant moved != [] ==> moved[0].Polled?
        invariant more || ok ==>
          Streaming() && io.state.session.zip.fed == fed && io.state.session.zip.ended == last
          && received == old(received) + |Data(moved)| && Inflated(moved) == Data(moved)
        invariant !more ==> moved != [] && (ok <==> Satisfied(moved, last)) && (!ok ==> Stuck(moved, last, room))
        invariant !more && ok && last ==> io.state.session.zip.done && zdone
        decreases if more then 1 else 0, expected - received
      {
        ghost var step;
        more, ok, step := DrainOnce(last);
        DataConcat(moved, step);
        InflatedConcat(moved, step);
        SatisfiedTail(moved, step, last);
        if !more && !ok {
          StuckTail(moved, step, last, room);
        }
        moved := moved + step;
      }
    }

    /** One poll, and the write of its output. */
    method DrainOnce(last: bool) returns (more: bool, ok: bool, ghost moved: seq<Event>)
      requires Streaming() && compressed && io.state.session.zip.ended == last
      modifies this`received, this`zdone, io, io.epd
      ensures Linked() && active && io.trace == old(io.trace) + moved
      ensures moved != [] && moved[0].Polled? && DataOnly(moved)
      ensures more || ok ==>
        && Streaming() && io.state.session.zip.fed == old(io.state.session.zip.fed)
        && io.state.session.zip.ended == last
        && received == old(received) + |Data(moved)| && Inflated(moved) == Data(moved)
      ensures more ==> received > old(received)
      ensures !more ==> (ok <==> Satisfied(moved, last)) && (ok && last ==> io.state.session.zip.done && zdone)
      ensures !more && !ok ==> Stuck(moved, last, old(expected - received))
    {
      hide Panel.Valid, Data, Inflated;
      var out, status := io.ZlibPoll();
      moved := [Polled(out, status)];
      PollAlone(out, status);
      if status.Failed? || |out| > expected - received {
        return false, false, moved;
      }
      if out != [] {
        ok := io.Write(out);
        PollAndWrite(out, status, ok);
        moved := moved + [Wrote(out, ok)];
        if !ok {
          return false, false, moved;
        }
      }
      received := received + |out|;
      if status.Done? {
        zdone := true;
        return false, true, moved;
      }
      if status.NeedsInput? {
        return false, !last, moved;
      }
      more, ok := true, true;
    }

    lemma PollAlone(out: bytes, status: Status)
      ensures Data([Polled(out, status)]) == [] && Inflated([Polled(out, status)]) == out
    {
      assert [Polled(out, status)][..0] == [];
    }

    lemma PollAndWrite(out: bytes, status: Status, ok: bool)
      ensures Data([Polled(out, status)] + [Wrote(out, ok)]) == if ok then out else []
      ensures Inflated([Polled(out, status)] + [Wrote(out, ok)]) == out
    {
      PollAlone(out, status);
      InflatedSnoc([Polled(out, status)], Wrote(out, ok));
      WriteAlone(out, ok);
      DataConcat([Polled(out, status)], [Wrote(out, ok)]);
    }

    method Tell(data: bytes) returns (ok: bool)
      requires Linked() || Inv()
      modifies io
      ensures old(Inv()) ==> Inv()
      ensures Linked() && io.state == old(io.state) && io.trace == old(io.trace) + [Sent(data, ok)]
    {
      hide Panel.Valid, Step;
      ok := io.Send(data);
    }

    method Respond(cmd: byte, accepted: bool) returns (ok: bool)
      requires Linked() || Inv()
      modifies io
      ensures old(Inv()) ==> Inv()
      ensures Linked() && io.state == old(io.state) && io.trace == old(io.trace) + [Sent(Reply(cmd, accepted), ok)]
    {
      hide Panel.Valid, Linked, Inv;
      ok := Tell(Reply(cmd, accepted));
    }

    method RespondError(cmd: byte, code: byte) returns (ok: bool)
      requires Linked() || Inv()
      modifies io
      ensures old(Inv()) ==> Inv()
      ensures Linked() && io.state == old(io.state) && io.trace == old(io.trace) + [Sent(ErrorReply(cmd, code), ok)]
    {
      hide Panel.Valid, Linked, Inv;
      ok := Tell(ErrorReply(cmd, code));
    }

    /** sack: the mask goes out byte by byte, least significant first. */
    method Sack(error: byte) returns (ok: bool)
      requires Linked() || Inv()
      modifies io
      ensures old(Inv()) ==> Inv()
      ensures Linked() && io.state == old(io.state)
      ensures io.trace == old(io.trace) + [Sent(SackFrame(error, nextSeq, pipeFrames), ok)]
    {
      hide Panel.Valid, Linked, Inv, SackFrame;
      var r := SackBytes(error);
      ok := Tell(r);
    }

    method SackBytes(error: byte) returns (r: bytes)
      ensures r == SackFrame(error, nextSeq, pipeFrames)
    {
      hide SackMask, ToByte;
      r := [if error != 0 then 0xff else 0x00, 0x81];
      if error != 0 {
        r := r + [error];
      }
      r := r + [ToByte((nextSeq + 255) % TWO_8)];
      var rest: nat := SackMask(pipeFrames);
      for i := 0 to 4
        invariant r + LeBytes(rest, 4 - i) == SackFrame(error, nextSeq, pipeFrames)
      {
        assert LeBytes(rest, 4 - i) == [ToByte(rest % TWO_8)] + LeBytes(rest / TWO_8, 3 - i);
        r := r + [ToByte(rest % TWO_8)];
        rest := rest / TWO_8;
      }
      assert LeBytes(rest, 0) == [] && r + [] == r;
    }

    /** start_region: 0 began a region on top of the image the client named, 1 it named another
        one, 3 the window leaves the panel, 4 it is not byte aligned, 6 the panel failed. */
    method StartRegion(base: nat, x: nat, y: nat, w: nat, h: nat) returns (code: byte)
      requires Idle()
      modifies this`partial, this`active, this`expected, io, io.epd
      ensures var refusal := RegionRefusal(base, displayedEtag, x, y, w, h);
              if refusal != 0 then code == refusal && io.trace == old(io.trace)
              else (code == 0 || code == 6) && io.trace == old(io.trace) + [Windowed(base, x, y, w, h, code == 0)]
      ensures io.state.shown == old(io.state.shown) && displayedEtag == old(displayedEtag)
      ensures code != 0 ==> Idle() && expected == old(expected)
      ensures code == 0 ==> Untouched() && active && partial && expected == RegionBytes(w, h) && LegalRegion(x, y, w, h)
    {
      hide Panel.Valid, Linked, Running, Idle, Untouched, Step, PlaneSize;
      if base == 0 || base != displayedEtag {
        return 1;
      }
      if w == 0 || h == 0 || x >= WIDTH || y >= HEIGHT || w > WIDTH - x || h > HEIGHT - y {
        return 3;
      }
      if x % 8 != 0 || w % 8 != 0 {
        return 4;
      }
      var ok := OpenRegion(base, x, y, w, h);
      code := if ok then 0 else 6;
    }

    method OpenRegion(base: nat, x: nat, y: nat, w: nat, h: nat) returns (ok: bool)
      requires Idle() && LegalRegion(x, y, w, h) && base == displayedEtag != 0
      modifies this`partial, this`active, this`expected, io, io.epd
      ensures io.trace == old(io.trace) + [Windowed(base, x, y, w, h, ok)] && io.state.shown == old(io.state.shown)
      ensures !ok ==> Idle() && expected == old(expected)
      ensures ok ==> Untouched() && active && partial && expected == RegionBytes(w, h)
    {
      hide Panel.Valid, Step, PlaneSize, LegalRegion, Untouched, Inv;
      RegionSteps(io.state, base, x, y, w, h, true);
      RegionSteps(io.state, base, x, y, w, h, false);
      ok := io.Region(x, y, w, h, base);
      if ok {
        PlaneFits(x, y, w, h);
        partial, active, expected := true, true, RegionBytes(w, h);
        RegionIsUntouched();
      }
    }

    lemma RegionIsUntouched()
      requires io.Valid() && active && partial && expected <= 2 * FRAME_BYTES
      requires io.state.session == Open(true, expected, [], Raw)
      requires displayedEtag == 0 || displayedEtag == io.state.shown
      requires received == newEtag == pipeFrames == nextSeq == 0 && frames == [] && !compressed && !pipe
      requires displayedEtag < TWO_32
      ensures Untouched()
    {
      hide Panel.Valid;
    }

    lemma RegionSteps(s: State, base: nat, x: nat, y: nat, w: nat, h: nat, ok: bool)
      requires s.session.Closed? && LegalRegion(x, y, w, h) && base == s.shown != 0
      ensures Step(s, Windowed(base, x, y, w, h, ok)) ==
              Some(if ok then s.(session := Open(true, RegionBytes(w, h), [], Raw)) else s)
    {
    }

    /** The refresh of a complete image and its report. */
    method Show(mode: byte, etag: nat) returns (ok: bool, ghost refreshed: bool)
      requires Streaming() && Complete(io.state.session) && etag < TWO_32
      modifies this, io, io.epd
      ensures Idle() && Now() == Rested(old(Now()), if refreshed then etag else 0, io.trace)
      ensures io.trace == old(io.trace)
          + [Finished(mode, etag, refreshed), Sent(Reply(if refreshed then 0x73 else 0x74, true), ok)]
      ensures RefreshShows(io.trace, |old(io.trace)|, old(io.state.session))
    {
      hide Panel.Valid, Fold, FinishEvents, RefreshShows;
      ghost var before, state := io.trace, io.state;
      assert Fold(before) == Some(state) by { io.FoldIsState(); }
      var shown := io.Finish(mode, etag);
      displayedEtag := if shown then etag else 0;
      Reset();
      ok := Respond(if shown then 0x73 else 0x74, true);
      refreshed := shown;
      ShownOnce(io.trace, before, state, io.trace[|before|], io.trace[|before| + 1]);
    }

    method FinishTransfer(cmd: byte, mode: byte, etag: nat) returns (ok: bool, ghost a: Answers)
      requires Streaming() && Complete(io.state.session) && etag < TWO_32
      modifies this, io, io.epd
      ensures Idle()
      ensures Now() == Rested(old(Now()), if Refreshes(old(pipe), a) && a.refreshed then etag else 0, io.trace)
      ensures io.trace == old(io.trace)
          + FinishEvents(old(pipe), old(SackFrame(0, nextSeq, pipeFrames)), cmd, mode, etag, a)
      ensures ok == (Refreshes(old(pipe), a) && a.told)
      ensures RefreshShows(io.trace, |old(io.trace)|, old(io.state.session))
    {
      hide Panel.Valid, Fold, Step, SackFrame, Complete, Announced;
      ok, a := Announce(cmd);
      if !ok {
        Abort();
      } else {
        ghost var refreshed;
        ok, refreshed := Show(mode, etag);
        a := a.(refreshed := refreshed, told := ok);
      }
    }

    /** The answers before a refresh. */
    method Announce(cmd: byte) returns (ok: bool, ghost a: Answers)
      requires Linked()
      modifies io
      ensures Linked() && io.state == old(io.state) && ok == Refreshes(pipe, a)
      ensures io.trace == old(io.trace)
          + Announced(pipe, old(SackFrame(0, nextSeq, pipeFrames)), cmd, a.sacked, a.replied)
      ensures forall i :: |old(io.trace)| <= i < |io.trace| ==> io.trace[i].Sent?
    {
      hide Panel.Valid, Step, SackFrame;
      a := Answers(true, true, true, true);
      ok := true;
      if pipe {
        ok := Sack(0);
        a := a.(sacked := ok);
      }
      if ok {
        ok := Respond(cmd, true);
        a := a.(replied := ok);
      }
    }

    lemma Links()
      requires Inv()
      ensures Linked()
    {
    }

    /** The next piece of a transfer that does not count its frames. */
    method Feed(data: bytes) returns (ok: bool, ghost moved: seq<Event>)
      requires Running() && !pipe
      modifies this`received, this`zdone, this`frames, io, io.epd
      ensures Linked() && io.trace == old(io.trace) + moved
      ensures Streamed(compressed, data, false, old(expected - received), moved, ok)
      ensures ok ==> Running() && frames == old(frames) + [data] && received == old(received) + |Data(moved)|
    {
      hide Panel.Valid, Step, Flatten, Streamed, Data;
      ok, moved := Stream(data, false);
      FlattenSnoc(frames, data);
      frames := frames + [data];
    }

    ghost function Now(): Snapshot
      reads this, io
    {
      Snapshot(active, pipe, pipeFailed, compressed, partial, received, expected, displayedEtag, newEtag, pipeFrame,
               nextSeq, pipeFrames, frames, io.trace)
    }

    // ----- 70, 71: a direct transfer

    /** A transfer has just begun. */
    ghost predicate Untouched()
      reads this, io, io.epd
    {
      Running() && io.state.session.Open? && io.state.session.written == [] && frames == [] && !compressed && !pipe
    }

    method BeginWhole() returns (ok: bool)
      requires Idle() && expected == FRAME_BYTES
      modifies this`active, io, io.epd
      ensures Inv() && active == ok && io.trace == old(io.trace) + [Begun(ok)]
      ensures ok ==> Untouched()
    {
      hide Panel.Valid;
      ok := io.Begin();
      active := ok;
    }

    /** Choose how the data of a transfer that has just begun is encoded. */
    method Compress(zip: bool)
      requires Untouched()
      modifies this`compressed, io
      ensures Running() && active && compressed == zip && received == 0
      ensures io.trace == old(io.trace) + Resets(zip, expected)
    {
      hide Panel.Valid, Flatten;
      compressed := zip;
      if compressed {
        io.ZlibReset(expected);
      }
    }

    /** The data that comes along with the start of a transfer. */
    method FeedFirst(data: bytes) returns (ok: bool, ghost moved: seq<Event>)
      requires Inv() && active && !pipe
      modifies this, io, io.epd
      ensures Inv() && active == ok && io.trace == old(io.trace) + moved + Aborts(!ok)
      ensures Streamed(old(compressed), data, false, old(expected - received), moved, ok)
      ensures Now() == if ok then Grown(old(Now()), data, moved, io.trace) else Rested(old(Now()), 0, io.trace)
    {
      hide Panel.Valid, Step, Linked, Streaming, Counted, Streamed, Data;
      ok, moved := Feed(data);
      if !ok {
        Abort();
      }
      assert ok ==> io.trace + [] == io.trace;
    }

    method DirectStart(payload: bytes) returns (ok: bool, ghost r: Started)
      requires Inv() && config.Valid()
      modifies this, io, io.epd, config
      ensures config.Valid() && !config.Writing() && config.Effective() == old(config.Effective())
      ensures Inv() && DirectStarted(old(Now()), io.trace, payload, r, ok)
      ensures Now() == DirectAfter(old(Now()), payload, r, io.trace)
    {
      hide Panel.Valid, ConfigStore.Store.Valid, ConfigStore.Store.Effective, Step, Linked, Streaming, Counted,
          Running, Le, Streamed, Data;
      NoData();
      r := Started(false, [], false);
      Drop();
      if payload != [] && (|payload| < 4 || |payload| > CONFIG_CHUNK || Le(payload[..4]) != FRAME_BYTES) {
        ok := Respond(0x70, false);
        return;
      }
      var begun := BeginWhole();
      if !begun {
        ok := Respond(0x70, false);
        return;
      }
      Compress(payload != []);
      ghost var moved := [];
      if compressed {
        begun, moved := FeedFirst(payload[4..]);
      }
      r := Started(true, moved, begun);
      assert payload == [] ==> io.trace + [] + Aborts(false) == io.trace;
      ok := Respond(0x70, begun);
    }

    method DirectData(payload: bytes) returns (ok: bool, ghost accepted: bool, ghost moved: seq<Event>)
      requires Inv()
      modifies this, io, io.epd
      ensures Inv() && DirectDone(old(Now()), Now(), payload, moved, accepted, ok)
    {
      hide Panel.Valid, Step, Linked, Streaming, Counted, Running, Idle, Streamed, Data;
      moved := [];
      if !active || pipe || payload == [] || |payload| > DIRECT_MAX {
        Abort();
        ok := Respond(0x71, false);
        return ok, false, moved;
      }
      var streamed;
      streamed, moved := FeedFirst(payload);
      accepted := streamed;
      ok := Respond(0x71, streamed);
    }

    // ----- 72, 82: the end of a transfer

    /** The checks that need the stream to be over: every byte there, and a zlib stream done. */
    method Flush() returns (complete: bool, ghost moved: seq<Event>, ghost flushed: bool)
      requires Running()
      modifies this`received, this`zdone, io, io.epd
      ensures Linked() && io.trace == old(io.trace) + moved
      ensures Streamed(compressed, [], true, old(expected - received), moved, flushed)
      ensures complete <==> flushed && old(received) + |Data(moved)| == expected
      ensures complete ==>
        && Streaming() && io.state.session.Open? && Complete(io.state.session) && io.state.session.expected == expected
        && Fed(io.state.session) == Flatten(frames) && io.state.session.zip.Inflating? == compressed
    {
      hide Panel.Valid, Step, Flatten, Satisfied, Data;
      complete, moved := Stream([], true);
      flushed := complete;
      complete := complete && received == expected && (!compressed || zdone);
    }

    lemma EtagBound(payload: bytes)
      requires Linked()
      ensures EndEtag(newEtag, payload) < TWO_32
    {
      hide Panel.Valid, Be;
      if |payload| == 5 {
        BeBound(payload[1..5]);
        Pow256Values();
      }
    }

    method Refuse(cmd: byte) returns (ok: bool, ghost a: Answers)
      requires Linked() || Inv()
      modifies this, io, io.epd
      ensures Idle() && Now() == Rested(old(Now()), NamedBase(old(Now())), io.trace)
      ensures ok == (a.sacked && a.told)
      ensures io.trace == old(io.trace)
          + RefuseEvents(old(active), old(pipe), old(SackFrame(0, nextSeq, pipeFrames)), cmd, a)
    {
      hide Panel.Valid, Step, SackFrame;
      ghost var before, sack, wasActive, wasPipe := io.trace, SackFrame(0, nextSeq, pipeFrames), active, pipe;
      a := Answers(true, true, true, true);
      ok := true;
      if cmd == 0x82 && active && pipe {
        ok := Sack(0);
        a := a.(sacked := ok);
      }
      Abort();
      if ok {
        ok := Respond(cmd, false);
        a := a.(told := ok);
      }
      assert io.trace == before + RefuseEvents(wasActive, wasPipe, sack, cmd, a);
    }

    method End(cmd: byte, payload: bytes) returns (ok: bool, ghost e: Ending)
      requires Inv() && (cmd == 0x72 || cmd == 0x82)
      modifies this, io, io.epd
      ensures Inv() && EndDone(old(Now()), Now(), cmd, payload, e, ok)
      // after a successful refresh the image has the name in the END, or else that of the start
      ensures e.shown && (old(pipe) ==> e.answers.sacked) && e.answers.replied && e.answers.refreshed ==>
        displayedEtag == if |payload| == 5 then Be(payload[1..5]) else old(newEtag)
    {
      hide Panel.Valid, Step, Linked, Streaming, Counted, Running, SackFrame, FinishEvents, RefuseEvents, Complete,
          Streamed, Data, EndEtag, EndMode, EndFits, RefreshShows, Flatten, Fed;
      var complete;
      ghost var moved, flushed;
      complete, moved, flushed := FlushFitting(cmd, payload);
      EtagBound(payload);
      EndBytes(newEtag, payload);
      ghost var image, answers := io.state.session, Answers(true, true, true, true);
      if complete {
        ok, answers := FinishTransfer(cmd, EndMode(payload), EndEtag(newEtag, payload));
        ShowsSince(io.trace, old(io.trace), moved, image);
      } else {
        ok, answers := Refuse(cmd);
      }
      e := Ending(complete, moved, flushed, image, answers);
    }

    /** Flush the stream if the END fits the open transfer. */
    method FlushFitting(cmd: byte, payload: bytes)
      returns (complete: bool, ghost moved: seq<Event>, ghost flushed: bool)
      requires Inv()
      modifies this`received, this`zdone, io, io.epd
      ensures Linked() && io.trace == old(io.trace) + moved && DataOnly(moved)
      ensures var fits := EndFits(active, pipe, partial, cmd, payload);
              && (if fits then Streamed(compressed, [], true, old(expected - received), moved, flushed)
                  else moved == [] && !flushed)
              && (complete <==> fits && flushed && old(received) + |Data(moved)| == expected)
      ensures complete ==>
        && Streaming() && io.state.session.Open? && Complete(io.state.session) && io.state.session.expected == expected
        && Fed(io.state.session) == Flatten(frames) && io.state.session.zip.Inflating? == compressed
    {
      hide Panel.Valid, Step, Linked, Streaming, Counted, Complete, Streamed, Data, Fed, Flatten;
      Links();
      complete, moved, flushed := EndFits(active, pipe, partial, cmd, payload), [], false;
      if complete {
        complete, moved, flushed := Flush();
        DataMoved(compressed, [], true, old(expected - received), moved, flushed);
      }
      assert moved == [] ==> io.trace + [] == io.trace;
    }

    // ----- 76: a partial transfer

    /** A direct transfer of a region. Its client must name the image on the panel, which a transfer
        still open would have made unknown; whatever goes wrong, that name is then given up. */
    method PartialStart(payload: bytes) returns (ok: bool, ghost r: Started)
      requires Inv() && config.Valid()
      modifies this, io, io.epd, config
      ensures config.Valid() && !config.Writing() && config.Effective() == old(config.Effective())
      ensures Inv() && PartialStarted(old(Now()), io.trace, payload, r, ok)
      ensures Now() == PartialAfter(old(Now()), payload, r, io.trace)
      ensures active ==> |payload| >= 17 && !old(active) && newEtag != 0
    {
      hide Panel.Valid, ConfigStore.Store.Valid, ConfigStore.Store.Effective, Step, Streaming, Counted, Running,
          Linked, Idle, Be, Streamed, RegionRefusal, RegionBytes, Data;
      r := Started(false, [], false);
      Drop();
      if |payload| < 17 {
        ok := RespondError(0x76, 6);
        return;
      }
      if payload[0] != 0 && payload[0] != 1 {
        ok := RespondError(0x76, 5);
        return;
      }
      var code := PartialOpen(payload);
      if code != 0 {
        ok := RespondError(0x76, code);
        return;
      }
      var fed;
      ghost var moved;
      fed, moved := FeedFirst(payload[17..]);
      r := Started(true, moved, fed);
      if fed {
        ok := Respond(0x76, true);
      } else {
        ok := RespondError(0x76, 6);
      }
    }

    /** The fields once the region of a partial start is open, or refused. */
    ghost function PartialOpened(b: Snapshot, payload: bytes, opens: bool, trace: seq<Event>): Snapshot
      requires |payload| >= 17
    {
      if !opens then b.(displayedEtag := 0, trace := trace)
      else
        b.(active := true, partial := true, compressed := payload[0] == 1,
        expected := RegionBytes(Be(payload[13..15]), Be(payload[15..17])), newEtag := Be(payload[5..9]), trace := trace)
    }

    method PartialOpen(payload: bytes) returns (code: byte)
      requires Idle() && |payload| >= 17 && (payload[0] == 0 || payload[0] == 1)
      modifies this, io, io.epd
      ensures Inv() && Now() == PartialOpened(old(Now()), payload, code == 0, io.trace)
      ensures var refusal, zip := PartialRefusal(payload, old(displayedEtag)), payload[0] == 1;
              if refusal != 0 then code == refusal && io.trace == old(io.trace)
              else
                && (code == 0 || code == 6)
                && io.trace == old(io.trace) + [PartialWindow(payload, code == 0)]
                               + if code == 0 then Resets(zip, RegionBytes(Be(payload[13..15]), Be(payload[15..17])))
                                 else []
      ensures code == 0 ==> active && newEtag != 0
    {
      hide Panel.Valid, Step, Streaming, Counted, Running, Be, RegionBytes, RegionRefusal;
      code := 1;
      if Be(payload[5..9]) != 0 {
        code := StartRegion(Be(payload[1..5]), Be(payload[9..11]), Be(payload[11..13]), Be(payload[13..15]),
            Be(payload[15..17]));
      }
      if code != 0 {
        displayedEtag := 0;
        assert io.trace + [] == io.trace;
      } else {
        Name(payload[5..9]);
        Compress(payload[0] == 1);
      }
    }

    method Name(etag: bytes)
      requires Untouched() && |etag| == 4
      modifies this`newEtag
      ensures Untouched() && newEtag == Be(etag)
    {
      hide Panel.Valid, Be, Flatten;
      BeBound(etag);
      Pow256Values();
      newEtag := Be(etag);
    }

    // ----- 80, 81: a PIPE transfer

    method PipeStart(payload: bytes) returns (ok: bool, ghost r: Started)
      requires Inv() && config.Valid()
      modifies this, io, io.epd, config
      ensures config.Valid() && !config.Writing() && config.Effective() == old(config.Effective())
      ensures Inv() && PipeStarted(old(Now()), io.trace, payload, r, ok)
      ensures Now() == PipeAfter(old(Now()), payload, r, io.trace)
      ensures active ==> |payload| >= 10 && (partial ==> !old(active))
    {
      hide Panel.Valid, ConfigStore.Store.Valid, ConfigStore.Store.Effective, Step, Streaming, Counted, Running,
          Linked, Idle, Le, RegionRefusal, RegionBytes, PipeAccept;
      r := Started(false, [], false);
      Drop();
      var refusal := PipeRefusal(payload);
      if refusal == 0 {
        refusal := PipeOpen(payload);
      }
      if refusal != 0 {
        ok := RespondError(0x80, refusal);
        return;
      }
      r := Started(true, [], true);
      ok := Tell(PipeAccept(pipeFrame, partial));
    }

    /** The fields once the panel is open for a PIPE transfer, or refused. */
    ghost function PipeOpened(b: Snapshot, payload: bytes, opens: bool, trace: seq<Event>): Snapshot
      requires |payload| >= 10
    {
      if !opens then b.(displayedEtag := if |payload| == 22 then 0 else b.displayedEtag, trace := trace)
      else
        b.(active := true, pipe := true, partial := |payload| == 22, compressed := payload[1] & 1 != 0,
        expected := Le(payload[6..10]), pipeFrame := PipeFrame(payload), trace := trace)
    }

    method PipeOpen(payload: bytes) returns (refusal: byte)
      requires Idle() && expected == FRAME_BYTES && PipeRefusal(payload) == 0
      modifies this, io, io.epd
      ensures Inv() && Now() == PipeOpened(old(Now()), payload, refusal == 0, io.trace)
      ensures var code := if |payload| == 22 then PipeRegionRefusal(payload, old(displayedEtag)) else 0;
              if code != 0 then refusal == (if code == 1 then 5 else 7) && io.trace == old(io.trace)
              else
                && (refusal == 0 || refusal == if |payload| == 22 then 7 else 3)
                && io.trace == old(io.trace) + [PipeOpening(payload, refusal == 0)]
                               + if refusal == 0 then Resets(payload[1] & 1 != 0, Le(payload[6..10])) else []
      ensures active ==> refusal == 0 && (partial ==> old(displayedEtag) != 0)
    {
      hide Panel.Valid, Step, Streaming, Counted, Running, Le, RegionBytes;
      if payload[1] & 2 != 0 {
        var code := StartRegion(Le(payload[10..14]), Le(payload[14..16]), Le(payload[16..18]), Le(payload[18..20]),
            Le(payload[20..22]));
        if code != 0 {
          displayedEtag := 0;
          assert io.trace + [] == io.trace;
          return if code == 1 then 5 else 7;
        }
      } else {
        var begun := BeginWhole();
        if !begun {
          assert io.trace + [] == io.trace;
          return 3;
        }
      }
      Compress(payload[1] & 1 != 0);
      StartCounting(PipeFrame(payload));
      refusal := 0;
    }

    method StartCounting(frame: nat)
      requires Running() && frames == [] && nextSeq == pipeFrames == 0 && frame <= MAX_FRAME
      modifies this`pipe, this`pipeFrame
      ensures Running() && pipe && pipeFrame == frame
    {
      hide Panel.Valid;
      pipe, pipeFrame := true, frame;
    }

    /** The data of the frame the sender is due. */
    method NextFrame(data: bytes) returns (ok: bool, ghost moved: seq<Event>)
      requires Running() && pipe && data != []
      modifies this`received, this`zdone, this`frames, this`nextSeq, this`pipeFrames, io, io.epd
      ensures Linked() && active && io.trace == old(io.trace) + moved
      ensures Streamed(compressed, data, false, old(expected - received), moved, ok)
      ensures ok ==> Running() && frames == old(frames) + [data] && io.state.session.Open?
                     && received == |io.state.session.written| && expected == io.state.session.expected
                     && Fed(io.state.session) == Flatten(frames) && compressed == io.state.session.zip.Inflating?
      ensures ok ==> nextSeq == (old(nextSeq) + 1) % TWO_8 && pipeFrames == (old(pipeFrames) + 1) % TWO_32
      ensures ok ==> received == old(received) + |Data(moved)| && (!compressed ==> received == old(received) + |data|)
      ensures !ok ==> nextSeq == old(nextSeq) && pipeFrames == old(pipeFrames)
    {
      hide Panel.Valid, Step, Flatten, Streamed, Data;
      ok, moved := Stream(data, false);
      FlattenSnoc(frames, data);
      if ok {
        frames := frames + [data];
        nextSeq, pipeFrames := (nextSeq + 1) % TWO_8, (pipeFrames + 1) % TWO_32;
        CountersCount(|frames| - 1);
      }
    }

    method FailPipe(error: byte) returns (ok: bool)
      requires Linked() && active
      modifies this, io, io.epd
      ensures Inv() && Now() == Rested(old(Now()), 0, io.trace).(pipeFailed := true)
      ensures io.trace == old(io.trace) + [Sent(old(SackFrame(error, nextSeq, pipeFrames)), ok), Aborted]
    {
      hide Panel.Valid, Step, SackFrame;
      ok := Sack(error);
      Abort();
      pipeFailed := true;
    }

    method PipeData(payload: bytes) returns (ok: bool, ghost o: Outcome)
      requires Inv()
      modifies this, io, io.epd
      ensures Inv() && FrameDone(old(Now()), Now(), payload, o, ok)
    {
      hide Panel.Valid, Step, Linked, Streaming, Counted, SackFrame, FinishEvents, Flatten, Val, Streamed;
      o := Ignored;
      if !active || !pipe || pipeFailed {
        return true, o;
      }
      Links();
      if FrameFits(pipeFrame, payload) {
        if Val(payload[0]) != nextSeq && Recent(nextSeq, pipeFrames, Val(payload[0])) {
          ok := Sack(0);
          return ok, Duplicate;
        }
        if Val(payload[0]) == nextSeq {
          ok, o := TakeFrame(payload);
          return;
        }
      }
      o := Rejected(4, []);
      assert io.trace + [] == io.trace;
      ok := FailPipe(4);
    }

    /** The frame that is due. */
    method TakeFrame(payload: bytes) returns (ok: bool, ghost o: Outcome)
      requires Inv() && active && pipe && !pipeFailed && Due(Now(), payload)
      modifies this, io, io.epd
      ensures Inv() && FrameDone(old(Now()), Now(), payload, o, ok)
    {
      hide Panel.Valid, Step, Linked, Streaming, Counted, SackFrame, FinishEvents, Flatten, Val, Streamed;
      var taken;
      ghost var moved;
      taken, moved := NextFrame(payload[1..]);
      ghost var middle := io.trace;
      if !taken {
        var error: byte := if compressed then 2 else 3;
        o := Rejected(error, moved);
        ok := FailPipe(error);
      } else if !compressed && !partial && received == expected {
        ghost var image, a := io.state.session, Answers(true, true, true, true);
        ok, a := FinishTransfer(0x82, 0, 0);
        DataMoved(false, payload[1..], false, old(expected - received), moved, true);
        ShowsSince(io.trace, old(io.trace), moved, image);
        o := Completed(moved, image, a);
      } else {
        o := Accepted(moved);
        ok := Sack(0);
      }
    }

    // ----- 40, 41, 42, 45: the configuration

    /** A read of the configuration: numbered replies until all of it is sent or a send fails. */
    method ConfigRead(payload: bytes) returns (ok: bool, ghost n: nat)
      requires Inv() && config.Valid()
      modifies io
      ensures Inv() && io.state == old(io.state)
      ensures payload != [] ==> io.trace == old(io.trace) + [Sent(Reply(0x40, false), ok)]
      ensures payload == [] ==>
          SentReplies(io.trace, old(io.trace), ConfigReplies(old(config.Effective()), 0, 0), n, ok)
    {
      hide Panel.Valid, Step, Linked, Inv, ConfigStore.Store.Valid, ConfigStore.Store.Effective, ConfigReplies,
          ConfigReply;
      n := 0;
      if payload != [] {
        ok := Respond(0x40, false);
        return;
      }
      var c := config.Get();
      ok, n := SendConfig(c);
    }

    method SendConfig(c: bytes) returns (ok: bool, ghost n: nat)
      requires Inv()
      modifies io
      ensures Inv() && io.state == old(io.state)
      ensures SentReplies(io.trace, old(io.trace), ConfigReplies(c, 0, 0), n, ok)
    {
      hide Panel.Valid, Step, Linked, Inv, ConfigReplies, AllSent, ConfigReply, SentReplies;
      var offset: nat, chunk: nat := 0, 0;
      ghost var before, sent, all: seq<bytes> := io.trace, [], ConfigReplies(c, 0, 0);
      NoneSent();
      while offset < |c|
        invariant offset <= |c| && Inv() && io.state == old(io.state)
        invariant sent + ConfigReplies(c, offset, chunk) == all
        invariant io.trace == before + AllSent(sent)
      {
        ghost var rest := ConfigReplies(c, offset, chunk);
        var count := if |c| - offset < ChunkSize(chunk) then |c| - offset else ChunkSize(chunk);
        ok := SendChunk(c, offset, chunk, count);
        if !ok {
          StoppedAt(io.trace, before, sent, rest);
          return ok, |sent|;
        }
        OneMoreReply(io.trace, before, sent, rest);
        sent, offset, chunk := sent + [rest[0]], offset + count, chunk + 1;
      }
      NoMoreReplies(c, chunk);
      assert sent + [] == sent;
      SentWhole(io.trace, before, sent);
      ok, n := true, |sent|;
    }

    lemma NoMoreReplies(c: bytes, chunk: nat)
      ensures ConfigReplies(c, |c|, chunk) == []
    {
    }

    method SendChunk(c: bytes, offset: nat, chunk: nat, count: nat) returns (ok: bool)
      requires Inv() && offset < |c|
      requires count == if |c| - offset < ChunkSize(chunk) then |c| - offset else ChunkSize(chunk)
      modifies io
      ensures Inv() && io.state == old(io.state)
      ensures var rest := ConfigReplies(c, offset, chunk);
              && rest != [] && rest[1..] == ConfigReplies(c, offset + count, chunk + 1)
              && io.trace == old(io.trace) + [Sent(rest[0], ok)]
    {
      hide Panel.Valid, Step, Linked, Inv;
      var header: bytes := [0x00, 0x40] + LeBytes(chunk, 2) + if chunk == 0 then LeBytes(|c|, 2) else [];
      var r := header + c[offset..offset + count];
      assert r == ConfigReply(c, offset, chunk);
      ok := Tell(r);
    }

    ghost function Settings(): ConfigShot
      requires config.Valid()
      reads this, config, config.flash, config.flash.mem
    {
      ConfigShot(config.Writing(), config.open, config.expected, config.Effective(), config.flash.faults)
    }

    /** A store without an open transaction. */
    lemma NothingOpen()
      requires config.Valid() && !config.Writing()
      ensures Settings() == Settled(config.Effective(), config.flash.faults)
    {
      hide ConfigStore.Store.Effective, Slots.Boot, Slots.Backed;
    }

    /** A new configuration, whole or its first 200 bytes. */
    method ConfigStart(payload: bytes) returns (ok: bool, ghost accepted: bool)
      requires Inv() && config.Valid()
      modifies this, io, io.epd, config, config.flash, config.flash.mem
      ensures Inv() && config.Valid() && Now() == Rested(old(Now()), NamedBase(old(Now())), io.trace)
      ensures io.trace == old(io.trace) + Aborts(old(active)) + [Sent(Reply(0x41, accepted), ok)]
      ensures ConfigStarted(old(Settings()), Settings(), payload, accepted)
    {
      hide Panel.Valid, Step, Linked, Idle, ConfigStore.Store.Valid, ConfigStore.Store.Effective,
          ConfigStore.Store.Content;
      hide Le, ConfigStore.Kept, Slots.Acceptable, Slots.Installed;
      Drop();
      ghost var aborted := io.trace;
      var first := |payload| == 2 + CONFIG_CHUNK;
      var stored := ConfigBegin(if first then payload[2..] else payload,
          if first then Le(payload[..2]) else |payload|, first);
      accepted := stored;
      ok := Respond(0x41, stored);
    }

    method ConfigBegin(data: bytes, total: nat, first: bool) returns (stored: bool)
      requires config.Valid() && !config.Writing() && (first ==> |data| == CONFIG_CHUNK) && (!first ==> total == |data|)
      modifies config, config.flash, config.flash.mem
      ensures config.Valid()
      ensures var b, a := old(Settings()), Settings();
              var size := if first then CONFIG_CHUNK < total <= Container.CONFIG_MAX
                          else 5 <= total <= CONFIG_CHUNK && Slots.Acceptable(data);
              && (stored <==> size && a.faults == b.faults)
              && if !stored then GivenUp(b, a)
                 else if first then a == ConfigShot(true, data, total, b.effective, b.faults)
                 else a == Settled(Slots.Installed(data), b.faults)
    {
      hide ConfigStore.Store.Valid, ConfigStore.Store.Effective, ConfigStore.Store.Content, ConfigStore.Kept,
          Slots.Installed;
      hide ConfigStore.Store.Promises, ConfigStore.Store.Chosen, Slots.Acceptable, Slots.Boot, Slots.Next,
          Slots.Committed, Slots.Target, Flash.Page;
      NothingOpen();
      if if first then total <= CONFIG_CHUNK else total < 5 || total > CONFIG_CHUNK {
        return false;
      }
      stored := config.Start(total);
      if stored {
        config.StartsEmpty();
        assert config.open + data == data;
        stored := config.Append(data);
      }
      if !config.Writing() {
        NothingOpen();
      }
    }

    /** A further chunk of the configuration. */
    method ConfigAppend(payload: bytes) returns (ok: bool, ghost accepted: bool)
      requires Inv() && config.Valid()
      modifies io, config, config.flash, config.flash.mem
      ensures Inv() && config.Valid() && io.trace == old(io.trace) + [Sent(Reply(0x42, accepted), ok)]
      ensures ConfigGrown(old(Settings()), Settings(), payload, accepted)
      ensures config.Writing() ==> old(config.Writing())
    {
      hide Panel.Valid, Step, Linked, Inv, ConfigStore.Store.Valid, ConfigStore.Store.Effective,
          ConfigStore.Store.Content;
      hide ConfigStore.Kept, Slots.Installed, Slots.Acceptable;
      config.OpenLength();
      if payload == [] || |payload| > CONFIG_CHUNK || !config.Writing() {
        config.Cancel();
        NothingOpen();
        ok := Respond(0x42, false);
        return ok, false;
      }
      var stored := config.Append(payload);
      accepted := stored;
      if !config.Writing() {
        NothingOpen();
      }
      ok := Respond(0x42, stored);
    }

    /** Back to the built-in configuration. */
    method ConfigClear(payload: bytes) returns (ok: bool, ghost accepted: bool)
      requires Inv() && config.Valid()
      modifies this, io, io.epd, config, config.flash, config.flash.mem
      ensures Inv() && config.Valid()
      ensures Now() == if payload != [] then old(Now()).(trace := io.trace)
                       else Rested(old(Now()), NamedBase(old(Now())), io.trace)
      ensures io.trace == old(io.trace) + Aborts(old(active) && payload == []) + [Sent(Reply(0x45, accepted), ok)]
      ensures ConfigCleared(old(Settings()), Settings(), payload, accepted)
      ensures if payload != [] then !accepted && config.Writing() == old(config.Writing()) else !config.Writing()
    {
      hide Panel.Valid, Step, Linked, ConfigStore.Store.Valid, ConfigStore.Store.Effective, ConfigStore.Store.Content;
      hide ConfigStore.Kept, Slots.Installed;
      if payload != [] {
        assert io.trace + [] == io.trace;
        ok := Respond(0x45, false);
        return ok, false;
      }
      Abort();
      var cleared := config.Clear();
      NothingOpen();
      accepted := cleared;
      ok := Respond(0x45, cleared);
    }

    // ----- the other commands, and the dispatch

    /** Commands whose answer does not depend on a transfer and does not touch one. */
    method Info(cmd: byte, payload: bytes) returns (ok: bool)
      requires Inv()
      modifies io
      ensures Inv() && io.state == old(io.state)
      ensures io.trace == old(io.trace) + [Sent(InfoReply(sha, cmd, payload), ok)]
    {
      hide Panel.Valid, Linked, Inv;
      ok := Tell(InfoReply(sha, cmd, payload));
    }

    method Msd(payload: bytes) returns (ok: bool, ghost sampled: Option<bytes>)
      requires Inv()
      modifies io
      ensures Inv() && io.state == old(io.state) && MsdTold(old(io.trace), io.trace, payload, sampled, ok)
    {
      hide Panel.Valid, Step, Linked, Inv;
      ghost var before := io.trace;
      sampled := None;
      if payload == [] {
        var measured, msd := Measure();
        if measured {
          sampled := Some(msd);
          ok := Tell([0x00, 0x44] + msd);
          return;
        }
      }
      ok := Respond(0x44, false);
    }

    method Measure() returns (ok: bool, msd: bytes)
      requires Inv()
      modifies io
      ensures Inv() && io.state == old(io.state) && io.trace == old(io.trace) + [Sampled(ok)] && |msd| == 16
    {
      hide Panel.Valid, Step;
      ok, msd := io.Sample();
    }

    /** A restart leaves no transfer behind. */
    method Restart(payload: bytes) returns (ok: bool)
      requires Inv()
      modifies this, io, io.epd
      ensures Inv() && (payload == [] ==> ok)
      ensures Now() == if payload != [] then old(Now()).(trace := io.trace)
                       else Rested(old(Now()), NamedBase(old(Now())), io.trace)
      ensures io.trace == old(io.trace) +
        if payload != [] then [Sent(Reply(0x0f, false), ok)] else Aborts(old(active)) + [Rebooted]
    {
      hide Panel.Valid, Step;
      if payload != [] {
        ok := Respond(0x0f, false);
        return;
      }
      Abort();
      io.Reboot();
      ok := true;
    }

    /** od_handle. A result of false makes the main loop drop the transfer and the connection. */
    method Handle(frame: bytes) returns (ok: bool)
      requires Valid()
      modifies this, io, io.epd, config, config.flash, config.flash.mem
      ensures Valid() && old(io.trace) <= io.trace
      ensures |frame| < 2 || |frame| > MAX_FRAME ==> !ok && io.trace == old(io.trace)
      ensures 2 <= |frame| <= MAX_FRAME && frame[0] != 0 ==>
          io.trace == old(io.trace) + [Sent(Reply(frame[1], false), ok)]
      ensures 2 <= |frame| <= MAX_FRAME && frame[0] == 0 ==>
          && Effect(sha, old(Now()), Now(), frame[1], frame[2..], ok)
          && Stores(old(Settings()), Settings(), old(io.trace), io.trace, frame[1], frame[2..], ok)
      ensures !(2 <= |frame| <= MAX_FRAME && frame[0] == 0) ==>
          Now() == old(Now()).(trace := io.trace) && Settings() == old(Settings())
    {
      hide Panel.Valid, Step, Linked, Running, Idle, Inv, ConfigStore.Store.Valid, ConfigStore.Store.Effective;
      hide SackFrame, FinishEvents, RefuseEvents, Fed, Complete, Le, Be, SentReplies, PanelIo.Fold;
      if |frame| < 2 || |frame| > MAX_FRAME {
        return false;
      }
      var cmd, payload := frame[1], frame[2..];
      if frame[0] != 0 {
        ok := Respond(cmd, false);
      } else if cmd in {0x40, 0x41, 0x42, 0x45} {
        ok := HandleConfig(cmd, payload);
      } else if cmd in {0x70, 0x76, 0x80} {
        ok := HandleStart(cmd, payload);
      } else if cmd in {0x71, 0x72, 0x81, 0x82} {
        ok := HandleData(cmd, payload);
      } else {
        ok := HandleOther(cmd, payload);
      }
    }

    method HandleConfig(cmd: byte, payload: bytes) returns (ok: bool)
      requires Valid() && cmd in {0x40, 0x41, 0x42, 0x45}
      modifies this, io, io.epd, config, config.flash, config.flash.mem
      ensures Valid() && old(io.trace) <= io.trace
      ensures Effect(sha, old(Now()), Now(), cmd, payload, ok)
      ensures Stores(old(Settings()), Settings(), old(io.trace), io.trace, cmd, payload, ok)
    {
      hide Panel.Valid, Step, Linked, Running, Idle, Inv, ConfigStore.Store.Valid, ConfigStore.Store.Effective;
      hide Le, Slots.Installed, ConfigStarted, ConfigGrown, ConfigCleared, Settings, Effect, Stores;
      if cmd == 0x40 {
        ok := HandleRead(payload);
        return;
      }
      ghost var b, accepted := Now(), false;
      match cmd {
        case 0x41 =>
          ok, accepted := ConfigStart(payload);
        case 0x42 =>
          ok, accepted := ConfigAppend(payload);
          assert io.trace == b.trace + Aborts(false) + [Sent(Reply(cmd, accepted), ok)];
        case _ =>
          ok, accepted := ConfigClear(payload);
      }
      ConfigEffect(b, cmd, payload, accepted, ok);
      ConfigStores(old(Settings()), b.trace, cmd, payload, accepted, ok);
    }

    method HandleRead(payload: bytes) returns (ok: bool)
      requires Valid()
      modifies io
      ensures Valid() && old(io.trace) <= io.trace
      ensures Effect(sha, old(Now()), Now(), 0x40, payload, ok)
      ensures Stores(old(Settings()), Settings(), old(io.trace), io.trace, 0x40, payload, ok)
    {
      hide Panel.Valid, Step, Linked, Running, Idle, Inv, ConfigStore.Store.Valid, ConfigStore.Store.Effective;
      hide ConfigReplies, AllSent, SentReplies;
      ghost var n, before := 0, io.trace;
      ok, n := ConfigRead(payload);
      if payload == [] {
        RepliesGrow(io.trace, before, ConfigReplies(config.Effective(), 0, 0), n, ok);
      }
    }

    lemma ConfigEffect(b: Snapshot, cmd: byte, payload: bytes, accepted: bool, ok: bool)
      requires cmd in {0x41, 0x42, 0x45}
          && Answered(b, Now(), b.active && (cmd == 0x41 || (cmd == 0x45 && payload == [])), cmd, accepted, ok)
      requires Now() == if cmd == 0x41 || (cmd == 0x45 && payload == []) then Rested(b, NamedBase(b), io.trace)
                        else b.(trace := io.trace)
      requires cmd == 0x45 && payload != [] ==> !accepted
      ensures Effect(sha, b, Now(), cmd, payload, ok)
    {
    }

    lemma ConfigStores(b: ConfigShot, from: seq<Event>, cmd: byte, payload: bytes, accepted: bool, ok: bool)
      requires config.Valid() && cmd in {0x41, 0x42, 0x45} && LastSent(io.trace, Reply(cmd, accepted), ok)
      requires cmd == 0x41 ==> ConfigStarted(b, Settings(), payload, accepted)
      requires cmd == 0x42 ==> ConfigGrown(b, Settings(), payload, accepted)
      requires cmd == 0x45 ==> ConfigCleared(b, Settings(), payload, accepted)
      ensures Stores(b, Settings(), from, io.trace, cmd, payload, ok)
    {
      hide ConfigStarted, ConfigGrown, ConfigCleared, Settings, ConfigStore.Store.Valid;
    }

    method HandleStart(cmd: byte, payload: bytes) returns (ok: bool)
      requires Valid() && cmd in {0x70, 0x76, 0x80}
      modifies this, io, io.epd, config
      ensures Valid() && old(io.trace) <= io.trace
      ensures Effect(sha, old(Now()), Now(), cmd, payload, ok)
      ensures Stores(old(Settings()), Settings(), old(io.trace), io.trace, cmd, payload, ok)
    {
      hide Panel.Valid, Step, Linked, Running, Idle, Inv, ConfigStore.Store.Valid, ConfigStore.Store.Effective;
      hide Le, Be, DirectStarted, PartialStarted, PipeStarted;
      ghost var b, r := Now(), Started(false, [], false);
      match cmd {
        case 0x70 =>
          ok, r := DirectStart(payload);
          DirectGrows(b, io.trace, payload, r, ok);
        case 0x76 =>
          ok, r := PartialStart(payload);
          PartialGrows(b, io.trace, payload, r, ok);
        case _ =>
          ok, r := PipeStart(payload);
          PipeGrows(b, io.trace, payload, r, ok);
      }
      NothingOpen();
    }

    method HandleData(cmd: byte, payload: bytes) returns (ok: bool)
      requires Valid() && cmd in {0x71, 0x72, 0x81, 0x82}
      modifies this, io, io.epd
      ensures Valid() && old(io.trace) <= io.trace
      ensures Effect(sha, old(Now()), Now(), cmd, payload, ok)
      ensures Stores(old(Settings()), Settings(), old(io.trace), io.trace, cmd, payload, ok)
    {
      hide Panel.Valid, Step, Linked, Running, Idle, Inv, ConfigStore.Store.Valid, ConfigStore.Store.Effective;
      hide EndDone, DirectDone, FrameDone;
      ghost var b := Now();
      match cmd {
        case 0x71 =>
          ghost var accepted, moved;
          ok, accepted, moved := DirectData(payload);
          DirectContinues(b, payload, moved, accepted, ok);
        case 0x81 =>
          ghost var o;
          ok, o := PipeData(payload);
          FrameContinues(b, payload, o, ok);
        case _ =>
          ghost var e;
          ok, e := End(cmd, payload);
          EndContinues(b, cmd, payload, e, ok);
      }
    }

    lemma DirectContinues(b: Snapshot, payload: bytes, moved: seq<Event>, accepted: bool, ok: bool)
      requires DirectDone(b, Now(), payload, moved, accepted, ok)
      ensures b.trace <= io.trace && (active ==> b.active)
    {
      hide Streamed;
    }

    lemma FrameContinues(b: Snapshot, payload: bytes, o: Outcome, ok: bool)
      requires FrameDone(b, Now(), payload, o, ok)
      ensures b.trace <= io.trace && (active ==> b.active)
    {
      hide Streamed, SackFrame, FinishEvents, RefreshShows, Flatten;
    }

    lemma EndContinues(b: Snapshot, cmd: byte, payload: bytes, e: Ending, ok: bool)
      requires EndDone(b, Now(), cmd, payload, e, ok)
      ensures b.trace <= io.trace && !active
    {
      hide Streamed, SackFrame, FinishEvents, RefuseEvents, RefreshShows, Flatten;
    }

    method HandleOther(cmd: byte, payload: bytes) returns (ok: bool)
      requires Valid() && cmd !in {0x40, 0x41, 0x42, 0x45, 0x70, 0x71, 0x72, 0x76, 0x80, 0x81, 0x82}
      modifies this, io, io.epd
      ensures Valid() && old(io.trace) <= io.trace
      ensures Effect(sha, old(Now()), Now(), cmd, payload, ok)
      ensures Stores(old(Settings()), Settings(), old(io.trace), io.trace, cmd, payload, ok)
    {
      hide Panel.Valid, Step, Linked, Running, Idle, Inv, ConfigStore.Store.Valid, ConfigStore.Store.Effective;
      hide EndDone, DirectDone, FrameDone, DirectStarted, PartialStarted, PipeStarted, LastSent, InfoReply;
      match cmd {
        case 0x44 =>
          ghost var sampled;
          ok, sampled := Msd(payload);
        case 0x0f =>
          ok := Restart(payload);
        case _ =>
          ok := Info(cmd, payload);
      }
    }
  }

  /** The wrapped counters count. */
  lemma CountersCount(n: nat)
    ensures (n % TWO_8 + 1) % TWO_8 == (n + 1) % TWO_8 && (n % TWO_32 + 1) % TWO_32 == (n + 1) % TWO_32
  {
    CountsTo256(n);
    CountsTo32Bits(n);
  }

  lemma CountsTo256(n: nat)
    ensures (n % TWO_8 + 1) % TWO_8 == (n + 1) % TWO_8
  {
  }

  lemma CountsTo32Bits(n: nat)
    ensures (n % TWO_32 + 1) % TWO_32 == (n + 1) % TWO_32
  {
  }
}
