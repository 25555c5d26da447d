/** The od_io callbacks of the transfer protocol, wired to the panel driver as in src/main.c, in an
    environment that may fail any of them, together with the zlib stream as an oracle. Everything
    that happens is recorded; a grammar says which records are sound. */
module PanelIo {
  import opened Bytes
  import opened Epd

  datatype Status = NeedsInput | Output | Done | Failed

  datatype Event =
    | Begun(ok: bool)
    | Windowed(base: nat, x: nat, y: nat, w: nat, h: nat, ok: bool) // base: the etag the client named
    | Reset(size: nat)
    | Pushed(data: bytes, last: bool, ok: bool)
    | Polled(out: bytes, status: Status)
    | Wrote(data: bytes, ok: bool)
    | Finished(mode: byte, etag: nat, ok: bool) // etag: the name the client gave the new image
    | Aborted
    | Sent(data: bytes, ok: bool)
    | Sampled(ok: bool)
    | Rebooted

  /** The stream of a compressed transfer: what was pushed, whether that was all, the output not
      yet written, and whether the last poll reported the end. */
  datatype Zip = Raw | Inflating(fed: bytes, ended: bool, pending: bytes, done: bool)

  /** Broken: a write or the inflater failed, and only an abort may follow. */
  datatype Session = Closed | Open(partial: bool, expected: nat, written: bytes, zip: Zip) | Broken

  /** shown: the etag of the image on the panel, 0 when unknown. */
  datatype State = State(session: Session, shown: nat)

  const CHUNK := 32

  /** The grammar. A transfer opens on an idle panel, a region only on top of the image its client
      named; it is written within its size; and it ends in an abort or in one refresh, which needs
      every byte written and a compressed stream ended, inflated and used up. */
  function Step(s: State, e: Event): Option<State> {
    match e
    case Begun(ok) =>
      if !s.session.Closed? then None
      else Some(if ok then s.(session := Open(false, FRAME_BYTES, [], Raw)) else s)
    case Windowed(base, x, y, w, h, ok) =>
      if !s.session.Closed? || !LegalRegion(x, y, w, h) || base == 0 || base != s.shown then None
      else Some(if ok then s.(session := Open(true, PlaneSize(w, h) * 2, [], Raw)) else s)
    case Reset(size) =>
      if !s.session.Open? || s.session.written != [] || !s.session.zip.Raw? || size != s.session.expected then None
      else Some(s.(session := s.session.(zip := Inflating([], false, [], false))))
    case Pushed(data, last, ok) =>
      if !s.session.Open? || !s.session.zip.Inflating? || s.session.zip.ended || s.session.zip.pending != [] then None
      else
        var zip := Inflating(s.session.zip.fed + data, last, [], false);
        Some(s.(session := if ok then s.session.(zip := zip) else Broken))
    case Polled(out, status) =>
      if !s.session.Open? || !s.session.zip.Inflating? || s.session.zip.pending != [] then None
      else Some(s.(session := if status.Failed? then Broken
                              else s.session.(zip := s.session.zip.(pending := out, done := status.Done?))))
    case Wrote(data, ok) =>
      if !s.session.Open? || data == [] || |s.session.written| + |data| > s.session.expected
         || (s.session.zip.Inflating? && s.session.zip.pending != data) then None
      else
        var written := s.session.written + data;
        Some(s.(session := if ok then s.session.(written := written, zip := Drained(s.session.zip)) else Broken))
    case Finished(mode, etag, ok) =>
      if !s.session.Open? || !Complete(s.session) then None
      else Some(State(Closed, if ok then etag else 0))
    case Aborted =>
      if s.session.Closed? then None else Some(State(Closed, 0))
    case Rebooted =>
      if s.session.Closed? then Some(s) else None
    case _ => Some(s)
  }

  function Drained(z: Zip): Zip {
    if z.Raw? then Raw else z.(pending := [])
  }

  predicate Complete(s: Session)
    requires s.Open?
  {
    |s.written| == s.expected && (s.zip.Inflating? ==> s.zip.ended && s.zip.done && s.zip.pending == [])
  }

  /** The state after a record, or None when the record breaks the grammar. */
  function Fold(trace: seq<Event>): Option<State> {
    if trace == [] then Some(State(Closed, 0))
    else
      var s := Fold(trace[..|trace| - 1]);
      if s.None? then None else Step(s.value, trace[|trace| - 1])
  }

  lemma FoldSnoc(trace: seq<Event>, e: Event)
    ensures Fold(trace + [e]) == if Fold(trace).None? then None else Step(Fold(trace).value, e)
  {
    hide Step;
    assert (trace + [e])[..|trace|] == trace;
  }

  /** What a transfer that opened shows: partial or not, and how many bytes it needs. */
  function Opens(e: Event): Option<(bool, nat)> {
    match e
    case Begun(true) => Some((false, FRAME_BYTES))
    case Windowed(_, _, _, w, h, true) => Some((true, w / 8 * h * 2))
    case _ => None
  }

  predicate Ends(e: Event) {
    e.Finished? || e.Aborted?
  }

  function Data(trace: seq<Event>): bytes {
    if trace == [] then []
    else
      var e := trace[|trace| - 1];
      Data(trace[..|trace| - 1]) + if e.Wrote? && e.ok then e.data else []
  }

  /** A transfer opened at position j and nothing has ended it since; these bytes were written. */
  ghost predicate OpenSince(trace: seq<Event>, j: nat, partial: bool, expected: nat, written: bytes) {
    && j < |trace|
    && Opens(trace[j]) == Some((partial, expected))
    && (forall k :: j < k < |trace| ==> !Ends(trace[k]) && Opens(trace[k]).None?)
    && Data(trace[j + 1..]) == written
  }

  lemma StepWithin(s: State, e: Event)
    requires Step(s, e).Some? && Step(s, e).value.session.Open?
    ensures var t := Step(s, e).value.session;
            if Opens(e).Some? then Opens(e).value == (t.partial, t.expected) && t.written == []
            else !Ends(e) && s.session.Open? && t.partial == s.session.partial && t.expected == s.session.expected
                 && t.written == s.session.written + if e.Wrote? && e.ok then e.data else []
  {
  }

  lemma OpenSinceSnoc(trace: seq<Event>, j: nat, e: Event, partial: bool, expected: nat, written: bytes)
    requires OpenSince(trace, j, partial, expected, written) && !Ends(e) && Opens(e).None?
    ensures OpenSince(trace + [e], j, partial, expected, written + if e.Wrote? && e.ok then e.data else [])
  {
    var all := trace + [e];
    assert all[j + 1..] == trace[j + 1..] + [e];
    assert all[j + 1..][..|trace| - j - 1] == trace[j + 1..];
  }

  lemma {:induction false} OpenSession(trace: seq<Event>)
    requires Fold(trace).Some? && Fold(trace).value.session.Open?
    ensures var s := Fold(trace).value.session;
            exists j :: OpenSince(trace, j, s.partial, s.expected, s.written)
  {
    hide Step, OpenSince, Opens, Ends;
    var n := |trace| - 1;
    var e, t := trace[n], Fold(trace).value.session;
    StepWithin(Fold(trace[..n]).value, e);
    if Opens(e).Some? {
      OpenHere(trace);
    } else {
      OpenSession(trace[..n]);
      var s := Fold(trace[..n]).value.session;
      var j :| OpenSince(trace[..n], j, s.partial, s.expected, s.written);
      OpenSinceSnoc(trace[..n], j, e, s.partial, s.expected, s.written);
      assert trace[..n] + [e] == trace;
    }
  }

  lemma OpenHere(trace: seq<Event>)
    requires trace != [] && Opens(trace[|trace| - 1]).Some?
    ensures var o := Opens(trace[|trace| - 1]).value; OpenSince(trace, |trace| - 1, o.0, o.1, [])
  {
    assert trace[|trace|..] == [];
  }

  lemma {:induction false} FoldPrefix(trace: seq<Event>, n: nat)
    requires n <= |trace| && Fold(trace).Some?
    ensures Fold(trace[..n]).Some?
  {
    hide Step;
    if n < |trace| {
      FoldPrefix(trace[..|trace| - 1], n);
      assert trace[..|trace| - 1][..n] == trace[..n];
    } else {
      assert trace[..n] == trace;
    }
  }

  lemma StepAt(trace: seq<Event>, i: nat)
    requires i < |trace| && Fold(trace).Some?
    ensures Fold(trace[..i]).Some? && Step(Fold(trace[..i]).value, trace[i]).Some?
  {
    hide Step;
    FoldPrefix(trace, i + 1);
    assert trace[..i + 1][..i] == trace[..i];
  }

  /** A refresh at position i of a record shows a complete transfer: exactly the bytes announced when
      it opened, all written since then; and of a compressed one, the stream was ended by the
      client, reported done by the inflater, and none of its output was left over. */
  ghost predicate ShowsWhole(trace: seq<Event>, i: nat)
    requires i <= |trace|
  {
    Fold(trace[..i]).Some? && Fold(trace[..i]).value.session.Open? && Complete(Fold(trace[..i]).value.session) &&
    var s := Fold(trace[..i]).value.session;
    exists j :: OpenSince(trace[..i], j, s.partial, s.expected, s.written)
  }

  /** In a sound record every refresh shows a complete transfer. */
  lemma RefreshIsComplete(trace: seq<Event>, i: nat)
    requires Fold(trace).Some? && i < |trace| && trace[i].Finished?
    ensures ShowsWhole(trace, i)
  {
    hide Fold, OpenSince;
    StepAt(trace, i);
    OpenSession(trace[..i]);
  }

  /** The event that ended the most recent transfer. */
  function LastEnd(trace: seq<Event>): Option<Event> {
    if trace == [] then None
    else if Ends(trace[|trace| - 1]) then Some(trace[|trace| - 1])
    else LastEnd(trace[..|trace| - 1])
  }

  lemma {:induction false} ShownIsLastEnd(trace: seq<Event>)
    requires Fold(trace).Some?
    ensures var last, shown := LastEnd(trace), Fold(trace).value.shown;
            shown == if last.Some? && last.value.Finished? && last.value.ok then last.value.etag else 0
  {
    if trace == [] {
    } else {
      ShownIsLastEnd(trace[..|trace| - 1]);
    }
  }

  /** In a sound record a region is only ever opened over the image its client named: the most
      recent transfer to end was refreshed under that etag, successfully. */
  lemma RegionOnItsBase(trace: seq<Event>, i: nat)
    requires Fold(trace).Some? && i < |trace| && trace[i].Windowed?
    ensures var last := LastEnd(trace[..i]);
            trace[i].base != 0 && last.Some? && last.value.Finished? && last.value.ok
            && last.value.etag == trace[i].base
  {
    hide Fold, LastEnd;
    StepAt(trace, i);
    ShownIsLastEnd(trace[..i]);
  }

  /** A whole image on the bus. For a region, the complement of the first half of the client's
      bytes follows command 10 and the complement of the second half command 13. */
  function Picture(partial: bool, s: bytes): seq<Bus> {
    Opening(partial) +
    if partial then Shown(Complement(s[..|s| / 2])) + [Command(0x13)] + Shown(Complement(s[|s| / 2..])) else Shown(s)
  }

  lemma CarriesPicture(bus: seq<Bus>, start: nat, partial: bool, plane: nat, image: bytes)
    requires Carries(bus, start, partial, plane, image)
    requires partial ==> plane > 0 && |image| == 2 * plane
    ensures exists before :: bus == before + Picture(partial, image)
  {
    hide Opening, Shown, Complement;
    var before := bus[..start - |Opening(partial)|];
    assert bus == before + Opening(partial) + bus[start..];
    if partial {
      assert |image| / 2 == plane && |image| > plane;
    }
    assert bus == before + Picture(partial, image);
  }

  /** The refresh at position i of the record came right behind the whole image: marks[i - 1] is the
      length of the bus before it and marks[i] the length after it. */
  ghost predicate Drawn(trace: seq<Event>, marks: seq<nat>, i: nat, bus: seq<Bus>)
    requires i < |trace| == |marks| && trace[i].Finished?
  {
    i > 0 && marks[i - 1] <= marks[i] <= |bus| && Fold(trace[..i]).Some? && Fold(trace[..i]).value.session.Open? &&
    var s := Fold(trace[..i]).value.session;
    && (exists before :: bus[..marks[i - 1]] == before + Picture(s.partial, s.written))
    && bus[..marks[i - 1]] + Refresh(s.partial, trace[i].mode) <= bus[..marks[i]]
  }

  /** The record along the bus: the length of the bus after each event, never shrinking, and every
      refresh on a stretch of its own behind its own image. */
  ghost predicate Timeline(trace: seq<Event>, marks: seq<nat>, bus: seq<Bus>) {
    && |marks| == |trace|
    && (forall i, j :: 0 <= i < j < |marks| ==> marks[i] <= marks[j])
    && (forall i :: 0 <= i < |marks| ==> marks[i] <= |bus|)
    && (forall i :: 0 <= i < |trace| && trace[i].Finished? ==> Drawn(trace, marks, i, bus))
  }

  lemma DrawnStays(trace: seq<Event>, marks: seq<nat>, e: Event, m: nat, i: nat, bus: seq<Bus>, longer: seq<Bus>)
    requires |marks| == |trace| && i < |trace| && trace[i].Finished? && Drawn(trace, marks, i, bus) && bus <= longer
    ensures Drawn(trace + [e], marks + [m], i, longer)
  {
    hide Fold, Picture, Refresh;
    assert (trace + [e])[..i] == trace[..i];
    assert longer[..marks[i - 1]] == bus[..marks[i - 1]] && longer[..marks[i]] == bus[..marks[i]];
  }

  /** One more event, during which the bus grew. */
  lemma TimelineGrows(trace: seq<Event>, marks: seq<nat>, e: Event, bus: seq<Bus>, longer: seq<Bus>)
    requires Timeline(trace, marks, bus) && bus <= longer
    requires e.Finished? ==> Drawn(trace + [e], marks + [|longer|], |trace|, longer)
    ensures Timeline(trace + [e], marks + [|longer|], longer)
  {
    hide Drawn;
    forall i | 0 <= i < |trace| && trace[i].Finished?
      ensures Drawn(trace + [e], marks + [|longer|], i, longer)
    {
      DrawnStays(trace, marks, e, |longer|, i, bus, longer);
    }
  }

  lemma DrawnNow(trace: seq<Event>, marks: seq<nat>, s: State, mode: byte, etag: nat, ok: bool,
                 bus: seq<Bus>, longer: seq<Bus>)
    requires |marks| == |trace| > 0 && marks[|marks| - 1] == |bus| && Fold(trace) == Some(s) && s.session.Open?
    requires exists before :: bus == before + Picture(s.session.partial, s.session.written)
    requires bus + Refresh(s.session.partial, mode) <= longer
    ensures Drawn(trace + [Finished(mode, etag, ok)], marks + [|longer|], |trace|, longer)
  {
    hide Fold, Picture, Refresh;
    var all := trace + [Finished(mode, etag, ok)];
    assert all[..|trace|] == trace && longer[..|bus|] == bus && longer[..|longer|] == longer;
  }

  class Panel {
    const epd: Driver
    ghost var trace: seq<Event>
    ghost var state: State
    /** The length of the bus after each event. */
    ghost var marks: seq<nat>

    /** Nothing was sent since the last event. */
    ghost predicate Marked(bus: seq<Bus>)
      reads this
    {
      |marks| == |trace| && (marks != [] ==> marks[|marks| - 1] == |bus|)
    }

    /** The record is sound, and an open transfer is what the awake panel is being shown. */
    ghost predicate Valid()
      reads this, epd
    {
      && epd.Valid()
      && Fold(trace) == Some(state) && Timeline(trace, marks, epd.bus) && Marked(epd.bus)
      && var s := state.session;
         s.Open? ==> epd.awake && epd.Showing() && epd.image == s.written && epd.partial == s.partial
                     && (s.partial ==> s.expected == 2 * epd.planeBytes)
    }

    constructor (deepSleep: bool)
      ensures Valid() && trace == [] && state == State(Closed, 0) && fresh(epd)
    {
      trace, state, marks := [], State(Closed, 0), [];
      epd := new Driver(deepSleep);
    }

    lemma FoldIsState()
      requires Valid()
      ensures Fold(trace) == Some(state)
    {
    }

    lemma BusIsSound()
      requires Valid()
      ensures Timeline(trace, marks, epd.bus) && Disciplined(epd.bus)
    {
    }

    lemma OpenHasHistory()
      requires Fold(trace) == Some(state) && state.session.Open?
      ensures trace != []
    {
    }

    /** Note what just happened, the bus having been as given before it. */
    ghost method Record(e: Event, was: seq<Bus>)
      requires Fold(trace) == Some(state) && Step(state, e).Some?
      requires Timeline(trace, marks, was) && Marked(was) && was <= epd.bus
      requires e.Finished? ==> Drawn(trace + [e], marks + [|epd.bus|], |trace|, epd.bus)
      modifies this
      ensures Fold(trace) == Some(state) && trace == old(trace) + [e] && state == Step(old(state), e).value
      ensures Timeline(trace, marks, epd.bus) && Marked(epd.bus)
    {
      hide Drawn, Step, Fold, Timeline;
      TimelineGrows(trace, marks, e, was, epd.bus);
      FoldSnoc(trace, e);
      trace, state, marks := trace + [e], Step(state, e).value, marks + [|epd.bus|];
    }

    method Begin() returns (ok: bool)
      requires Valid() && state.session.Closed?
      modifies this, epd
      ensures Valid() && trace == old(trace) + [Begun(ok)] && Some(state) == Step(old(state), Begun(ok))
      ensures ok ==> exists n :: epd.bus == old(epd.bus) + StartUp(false) + Polls(n, true) + Settings(false)
      ensures !ok ==> exists n :: old(epd.bus) + StartUp(false) + Polls(n, false) + PowerDown() <= epd.bus
    {
      hide Carries, Disciplined, Ready, Fold, Timeline, StartUp, Polls, PowerDown, Settings;
      ghost var was := epd.bus;
      ok := epd.Begin();
      Record(Begun(ok), was);
    }

    /** The number of LUT frames comes from the configuration and is left open. */
    method Region(x: nat, y: nat, w: nat, h: nat, ghost base: nat) returns (ok: bool)
      requires Valid() && Step(state, Windowed(base, x, y, w, h, true)).Some?
      modifies this, epd
      ensures Valid() && trace == old(trace) + [Windowed(base, x, y, w, h, ok)]
      ensures Some(state) == Step(old(state), Windowed(base, x, y, w, h, ok))
      ensures ok ==> LegalRegion(x, y, w, h) && exists frames, n ::
        epd.bus == old(epd.bus) + StartUp(true) + Polls(n, true) + Settings(true) + Window(x, y, w, h, frames)
      ensures !ok ==> exists n :: old(epd.bus) + StartUp(true) + Polls(n, false) + PowerDown() <= epd.bus
    {
      hide Carries, Disciplined, Ready, Fold, Timeline, StartUp, Polls, PowerDown, Settings, Window;
      ghost var was := epd.bus;
      var frames: byte := *;
      ok := epd.Region(x, y, w, h, frames);
      Record(Windowed(base, x, y, w, h, ok), was);
    }

    /** A failing write may have shifted out any part of its data. */
    method Write(data: bytes) returns (ok: bool)
      requires Valid() && Step(state, Wrote(data, true)).Some?
      modifies this, epd
      ensures Valid() && trace == old(trace) + [Wrote(data, ok)] && Some(state) == Step(old(state), Wrote(data, ok))
    {
      hide Carries, Disciplined, Ready, Fold, Timeline;
      ghost var was := epd.bus;
      ok := *;
      var count: nat :| count <= |data|;
      assert data[..|data|] == data;
      epd.Write(data[..if ok then |data| else count]);
      Record(Wrote(data, ok), was);
    }

    /** A refresh: what precedes it on the bus is the whole image, in the panel's form. */
    method Finish(mode: byte, ghost etag: nat) returns (ok: bool)
      requires Valid() && state.session.Open? && Complete(state.session)
      modifies this, epd
      ensures Valid() && trace == old(trace) + [Finished(mode, etag, ok)]
      ensures Some(state) == Step(old(state), Finished(mode, etag, ok))
      ensures var s := old(state.session);
              && (exists before :: old(epd.bus) == before + Picture(s.partial, s.written))
              && old(epd.bus) + Refresh(s.partial, mode) <= epd.bus
    {
      hide Carries, Disciplined, Ready, Fold, Timeline, Picture, Refresh;
      ghost var was := epd.bus;
      CarriesPicture(epd.bus, epd.start, epd.partial, epd.planeBytes, epd.image);
      OpenHasHistory();
      ghost var n, ready;
      ok, n, ready := epd.Finish(mode);
      DrawnNow(trace, marks, state, mode, etag, ok, was, epd.bus);
      Record(Finished(mode, etag, ok), was);
    }

    method Abort()
      requires Valid() && !state.session.Closed?
      modifies this, epd
      ensures Valid() && trace == old(trace) + [Aborted] && state == State(Closed, 0)
    {
      hide Carries, Disciplined, Ready, Fold, Timeline;
      ghost var was := epd.bus;
      var off;
      ghost var n;
      off, n := epd.Off();
      Record(Aborted, was);
    }

    method Send(data: bytes) returns (ok: bool)
      requires Valid()
      modifies this
      ensures Valid() && trace == old(trace) + [Sent(data, ok)] && state == old(state)
    {
      hide Carries, Disciplined, Ready, Fold, Timeline;
      ghost var was := epd.bus;
      ok := *;
      Record(Sent(data, ok), was);
    }

    method Sample() returns (ok: bool, msd: bytes)
      requires Valid()
      modifies this
      ensures Valid() && trace == old(trace) + [Sampled(ok)] && state == old(state) && |msd| == 16
    {
      hide Carries, Disciplined, Ready, Fold, Timeline;
      ghost var was := epd.bus;
      ok := *;
      msd :| |msd| == 16 by { assert |Zeros(16)| == 16; }
      Record(Sampled(ok), was);
    }

    /** The device restarts here; the model only records that it does so between transfers. */
    method Reboot()
      requires Valid() && state.session.Closed?
      modifies this
      ensures Valid() && trace == old(trace) + [Rebooted] && state == old(state)
    {
      hide Carries, Disciplined, Ready, Fold, Timeline;
      ghost var was := epd.bus;
      Record(Rebooted, was);
    }

    method ZlibReset(size: nat)
      requires Valid() && Step(state, Reset(size)).Some?
      modifies this
      ensures Valid() && trace == old(trace) + [Reset(size)] && Some(state) == Step(old(state), Reset(size))
    {
      hide Carries, Disciplined, Ready, Fold, Timeline;
      ghost var was := epd.bus;
      Record(Reset(size), was);
    }

    method ZlibPush(data: bytes, last: bool) returns (ok: bool)
      requires Valid() && Step(state, Pushed(data, last, true)).Some?
      modifies this
      ensures Valid() && trace == old(trace) + [Pushed(data, last, ok)]
      ensures Some(state) == Step(old(state), Pushed(data, last, ok))
    {
      hide Carries, Disciplined, Ready, Fold, Timeline;
      ghost var was := epd.bus;
      ok := *;
      Record(Pushed(data, last, ok), was);
    }

    /** The contract of the inflater: at most a chunk, and some output when it says so. */
    method ZlibPoll() returns (out: bytes, status: Status)
      requires Valid() && Step(state, Polled([], NeedsInput)).Some?
      modifies this
      ensures Valid() && trace == old(trace) + [Polled(out, status)]
      ensures Some(state) == Step(old(state), Polled(out, status))
      ensures |out| <= CHUNK && (status.Output? ==> out != [])
    {
      hide Carries, Disciplined, Ready, Fold, Timeline;
      ghost var was := epd.bus;
      status := *;
      out :| |out| <= CHUNK && (status.Output? ==> out != []) by { assert |Zeros(1)| == 1; }
      Record(Polled(out, status), was);
    }
  }
}
