/** What any upload may be relied on for: what it shows, and when nothing fails that it does show. */
module Uploads {
  import opened Bytes
  import opened Frames
  import opened PanelIo
  import opened Protocol

  /** What an image is made of: how many bytes, and whether they come out of a compressed stream. */
  datatype Form = Form(size: nat, zip: bool)

  function FormOf(b: Snapshot): Form {
    Form(b.expected, b.compressed)
  }

  /** Every refresh since then showed exactly this image. */
  ghost predicate ShowsWholly(trace: seq<Event>, from: nat, image: bytes) {
    forall i :: from <= i < |trace| && trace[i].Finished? ==>
      Fold(trace[..i]).Some? && Fold(trace[..i]).value.session.Open? && Fold(trace[..i]).value.session.written == image
  }

  // ----- how often an image is shown

  ghost predicate NoRefresh(trace: seq<Event>, from: nat) {
    forall i :: from <= i < |trace| ==> !trace[i].Finished?
  }

  ghost predicate OneRefresh(trace: seq<Event>, from: nat) {
    exists i :: from <= i < |trace| && trace[i].Finished? &&
        forall j :: from <= j < |trace| && j != i ==> !trace[j].Finished?
  }

  lemma MovesNoRefresh(from: seq<Event>, moved: seq<Event>, answers: seq<Event>)
    requires DataOnly(moved) && forall e :: e in answers ==> !e.Finished?
    ensures NoRefresh(from + moved + answers, |from|)
  {
    var all := from + moved + answers;
    forall i | |from| <= i < |all|
      ensures !all[i].Finished?
    {
      if i < |from| + |moved| {
        assert all[i] == moved[i - |from|] && moved[i - |from|] in moved;
      } else {
        assert all[i] == answers[i - |from| - |moved|] && answers[i - |from| - |moved|] in answers;
      }
    }
  }

  lemma NoneThenOne(t: seq<Event>, u: seq<Event>, from: nat)
    requires from <= |t| && t <= u && NoRefresh(t, from) && OneRefresh(u, |t|)
    ensures OneRefresh(u, from)
  {
    var i :| |t| <= i < |u| && u[i].Finished? && forall j :: |t| <= j < |u| && j != i ==> !u[j].Finished?;
    forall j | from <= j < |u| && j != i
      ensures !u[j].Finished?
    {
      assert j < |t| ==> u[j] == t[j];
    }
  }

  lemma OneThenNone(t: seq<Event>, u: seq<Event>, from: nat)
    requires from <= |t| && t <= u && OneRefresh(t, from) && NoRefresh(u, |t|)
    ensures OneRefresh(u, from)
  {
    var i :| from <= i < |t| && t[i].Finished? && forall j :: from <= j < |t| && j != i ==> !t[j].Finished?;
    assert u[i] == t[i];
    forall j | from <= j < |u| && j != i
      ensures !u[j].Finished?
    {
      assert j < |t| ==> u[j] == t[j];
    }
  }

  lemma NoneThenNone(t: seq<Event>, u: seq<Event>, from: nat)
    requires from <= |t| && t <= u && NoRefresh(t, from) && NoRefresh(u, |t|)
    ensures NoRefresh(u, from)
  {
    forall j | from <= j < |u|
      ensures !u[j].Finished?
    {
      assert j < |t| ==> u[j] == t[j];
    }
  }

  // ----- when nothing fails

  /** Every outcome recorded since then is good. */
  ghost predicate AllWell(trace: seq<Event>, from: nat) {
    forall i :: from <= i < |trace| ==> Well(trace[i])
  }

  predicate Well(e: Event) {
    match e
    case Begun(ok) => ok
    case Windowed(_, _, _, _, _, ok) => ok
    case Pushed(_, _, ok) => ok
    case Polled(_, status) => !status.Failed?
    case Wrote(_, ok) => ok
    case Sent(_, ok) => ok
    case Finished(_, _, ok) => ok
    case _ => true
  }

  lemma WellAfter(trace: seq<Event>, from: nat, later: nat)
    requires AllWell(trace, from) && from <= later
    ensures AllWell(trace, later)
  {
  }

  lemma WellAt(trace: seq<Event>, from: nat, i: nat)
    requires AllWell(trace, from) && from <= i < |trace|
    ensures Well(trace[i])
  {
  }

  lemma NotWell(trace: seq<Event>, from: seq<Event>, moved: seq<Event>)
    requires moved != [] && !Well(moved[0]) && from + moved <= trace
    ensures !AllWell(trace, |from|)
  {
    assert trace[|from|] == moved[0];
  }

  lemma StopIsNotWell(a: seq<Event>, t: seq<Event>, u: seq<Event>)
    requires a <= t && (u == t || u == t + [Aborted])
    ensures (AllWell(u, |a|) ==> AllWell(t, |a|)) && Swell(u, |a|) == Swell(t, |a|)
  {
    hide Inflated, Well;
    assert forall i :: |a| <= i < |t| ==> t[i] == u[i];
    if u == t + [Aborted] {
      assert u[|a|..] == t[|a|..] + [Aborted];
      InflatedSnoc(t[|a|..], Aborted);
    }
  }

  /** A refresh in one of two stretches, none in the other. */
  lemma OneInAll(before: seq<Event>, middle: seq<Event>, trace: seq<Event>)
    requires before <= middle <= trace
    ensures AllWell(trace, |before|) ==> AllWell(middle, |before|) && AllWell(trace, |middle|)
    ensures NoRefresh(middle, |before|) && OneRefresh(trace, |middle|) ==> OneRefresh(trace, |before|)
    ensures OneRefresh(middle, |before|) && NoRefresh(trace, |middle|) ==> OneRefresh(trace, |before|)
  {
    hide OneRefresh, NoRefresh, Well;
    assert forall i :: |before| <= i < |middle| ==> middle[i] == trace[i];
    if NoRefresh(middle, |before|) && OneRefresh(trace, |middle|) {
      NoneThenOne(middle, trace, |before|);
    }
    if OneRefresh(middle, |before|) && NoRefresh(trace, |middle|) {
      OneThenNone(middle, trace, |before|);
    }
  }

  // ----- what a compressed stream inflates to

  /** How many bytes the inflater has yielded since then. */
  ghost function Swell(trace: seq<Event>, from: nat): nat {
    if from <= |trace| then |Inflated(trace[from..])| else 0
  }

  lemma SwellJoin(t: seq<Event>, u: seq<Event>, from: nat)
    requires from <= |t| && t <= u
    ensures Swell(u, from) == Swell(t, from) + Swell(u, |t|)
  {
    hide Inflated;
    assert u[from..] == t[from..] + u[|t|..];
    InflatedConcat(t[from..], u[|t|..]);
  }

  lemma {:induction false} NoMoreInflated(answers: seq<Event>)
    requires forall e :: e in answers ==> !e.Polled?
    ensures Inflated(answers) == []
  {
    if answers == [] {
    } else {
      NoMoreInflated(answers[..|answers| - 1]);
      assert answers[|answers| - 1] in answers;
    }
  }

  /** What the inflater said last. */
  function LastWord(trace: seq<Event>): Option<Status> {
    if trace == [] then None
    else
      var e := trace[|trace| - 1];
      if e.Polled? then Some(e.status) else LastWord(trace[..|trace| - 1])
  }

  lemma LastWordOf(moved: seq<Event>)
    requires moved != []
    ensures var n := |moved| - 1;
            && (moved[n].Polled? ==> LastWord(moved) == Some(moved[n].status))
            && (moved[n].Wrote? && n > 0 && moved[n - 1].Polled? ==> LastWord(moved) == Some(moved[n - 1].status))
  {
    var n := |moved| - 1;
    assert n > 0 ==> moved[..n][..n - 1] == moved[..n - 1] && moved[..n][n - 1] == moved[n - 1];
  }

  lemma {:induction false} LastWordStays(t: seq<Event>, more: seq<Event>)
    requires forall e :: e in more ==> !e.Polled?
    ensures LastWord(t + more) == LastWord(t)
  {
    if more == [] {
      assert t + more == t;
    } else {
      var rest := more[..|more| - 1];
      LastWordStays(t, rest);
      assert (t + more)[..|t + more| - 1] == t + rest && (t + more)[|t + more| - 1] == more[|more| - 1];
      assert more[|more| - 1] in more;
    }
  }

  lemma {:induction false} LastWordLater(t: seq<Event>, u: seq<Event>)
    ensures LastWord(t + u) == if LastWord(u).Some? then LastWord(u) else LastWord(t)
  {
    if u == [] {
      assert t + u == t;
    } else {
      var rest := u[..|u| - 1];
      LastWordLater(t, rest);
      assert (t + u)[..|t + u| - 1] == t + rest && (t + u)[|t + u| - 1] == u[|u| - 1];
    }
  }

  /** Nothing has failed since then, and what a compressed stream yields fits the image. */
  ghost predicate GoodRun(b: Snapshot, trace: seq<Event>) {
    AllWell(trace, |b.trace|) && (b.compressed ==> b.received + Swell(trace, |b.trace|) <= b.expected)
  }

  lemma GoodBefore(b: Snapshot, t: seq<Event>, u: seq<Event>)
    requires b.trace <= t <= u
    ensures GoodRun(b, u) ==> GoodRun(b, t)
  {
    hide Swell, Well;
    SwellJoin(t, u, |b.trace|);
    assert forall i :: |b.trace| <= i < |t| ==> t[i] == u[i];
  }

  /** A good run is good in both its parts. */
  lemma GoodSplit(b: Snapshot, c: Snapshot, trace: seq<Event>)
    requires b.trace <= c.trace <= trace && c.compressed == b.compressed && c.expected == b.expected
    requires b.compressed ==> c.received == b.received + Swell(c.trace, |b.trace|)
    ensures GoodRun(b, trace) ==> GoodRun(b, c.trace) && GoodRun(c, trace)
  {
    hide Swell, Well;
    SwellJoin(c.trace, trace, |b.trace|);
    GoodBefore(b, c.trace, trace);
  }

  lemma GoodIsWell(b: Snapshot, trace: seq<Event>)
    requires GoodRun(b, trace)
    ensures AllWell(trace, |b.trace|)
  {
  }

  /** What goes wrong with a compressed piece shows. */
  lemma NeverStuck(trace: seq<Event>, b: Snapshot, moved: seq<Event>, answers: seq<Event>, last: bool)
    requires trace == b.trace + moved + answers && b.compressed && GoodRun(b, trace)
    requires Stuck(moved, last, b.expected - b.received) && forall e :: e in answers ==> e.Sent? || e.Aborted?
    ensures last && LastWord(moved) == Some(NeedsInput) && LastWord(trace[|b.trace|..]) == Some(NeedsInput)
  {
    hide Inflated, LastWord;
    var n := |moved| - 1;
    assert trace[|b.trace| + n] == moved[n] && Well(trace[|b.trace| + n]);
    assert trace[|b.trace|..] == moved + answers;
    InflatedConcat(moved, answers);
    LastWordOf(moved);
    LastWordStays(moved, answers);
  }

  /** A piece of a good run goes through. */
  lemma NotRejected(trace: seq<Event>, b: Snapshot, data: bytes, moved: seq<Event>, answers: seq<Event>)
    requires trace == b.trace + moved + answers && GoodRun(b, trace)
    requires forall e :: e in answers ==> e.Sent? || e.Aborted?
    requires !b.compressed ==> b.received + |data| <= b.expected
    ensures !Streamed(b.compressed, data, false, b.expected - b.received, moved, false)
  {
    hide Stuck, Satisfied, Inflated, Data, LastWord, AllWell, Swell;
    if Streamed(b.compressed, data, false, b.expected - b.received, moved, false) {
      if b.compressed {
        NeverStuck(trace, b, moved, answers, false);
      } else {
        NotWell(trace, b.trace, moved);
      }
    }
  }

  /** A stream has inflated to so many bytes, and does not ask for more. */
  ghost predicate Inflates(trace: seq<Event>, from: nat, size: int) {
    from <= |trace| && Swell(trace, from) == size && LastWord(trace[from..]) != Some(NeedsInput)
  }

  /** Every byte of the image is there, and the inflater does not ask for more. */
  ghost predicate AllThere(b: Snapshot, trace: seq<Event>) {
    if b.compressed then Inflates(trace, |b.trace|, b.expected - b.received) else b.received == b.expected
  }

  /** What is there in the end is there after the frames. */
  lemma ThereOn(b: Snapshot, c: Snapshot, trace: seq<Event>)
    requires b.trace <= c.trace <= trace && c.compressed == b.compressed && c.expected == b.expected && b.compressed
    requires c.received == b.received + Swell(c.trace, |b.trace|) && AllThere(b, trace)
    ensures AllThere(c, trace)
  {
    hide Swell, LastWord;
    SwellJoin(c.trace, trace, |b.trace|);
    assert trace[|b.trace|..] == c.trace[|b.trace|..] + trace[|c.trace|..];
    LastWordLater(c.trace[|b.trace|..], trace[|c.trace|..]);
  }

  /** A start moves nothing, so what inflates does so after it. */
  lemma StillInflates(a: seq<Event>, t: seq<Event>, u: seq<Event>, size: int)
    requires a <= t <= u && Swell(t, |a|) == 0
    ensures Inflates(u, |a|, size) ==> Inflates(u, |t|, size)
  {
    hide Swell, LastWord;
    SwellJoin(t, u, |a|);
    assert u[|a|..] == t[|a|..] + u[|t|..];
    LastWordLater(t[|a|..], u[|t|..]);
  }

  // ----- the end of a transfer

  lemma FinishParts(pipe: bool, sack: bytes, cmd: byte, mode: byte, etag: nat, a: Answers)
    ensures var f, replied := FinishEvents(pipe, sack, cmd, mode, etag, a), Sent(Reply(cmd, true), a.replied);
            && f != [] && f[0] == (if pipe then Sent(sack, a.sacked) else replied)
            && (pipe && a.sacked ==> |f| > 1 && f[1] == replied)
            && (Refreshes(pipe, a) ==>
                  f == (if pipe then [f[0]] else []) + [replied] + [Finished(mode, etag, a.refreshed)]
                       + [Sent(Reply(if a.refreshed then 0x73 else 0x74, true), a.told)])
  {
  }

  /** When nothing fails the end of a complete transfer shows it once and says so. */
  lemma FinishWell(trace: seq<Event>, from: seq<Event>, pipe: bool, sack: bytes, cmd: byte,
                   mode: byte, etag: nat, a: Answers)
    requires trace == from + FinishEvents(pipe, sack, cmd, mode, etag, a) && AllWell(trace, |from|)
    ensures OneRefresh(trace, |from|) && Refreshes(pipe, a) && a.refreshed && a.told
  {
    hide FinishEvents;
    var n, f := |from|, FinishEvents(pipe, sack, cmd, mode, etag, a);
    FinishParts(pipe, sack, cmd, mode, etag, a);
    assert trace[n] == f[0] && Well(trace[n]);
    assert |f| > 1 ==> trace[n + 1] == f[1] && Well(trace[n + 1]);
    var at := if pipe then n + 2 else n + 1;
    assert trace[at] == f[at - n] == Finished(mode, etag, a.refreshed) && Well(trace[at]);
    assert trace[at + 1] == f[at - n + 1] && Well(trace[at + 1]);
    forall j | n <= j < |trace| && j != at
      ensures !trace[j].Finished?
    {
      assert trace[j] == f[j - n];
    }
  }

  lemma OnlyAnswers(active: bool, pipe: bool, sack: bytes, cmd: byte, mode: byte, etag: nat, a: Answers)
    ensures forall e :: e in FinishEvents(pipe, sack, cmd, mode, etag, a) ==> !e.Polled?
    ensures forall e :: e in RefuseEvents(active, pipe, sack, cmd, a) ==> e.Sent? || e.Aborted?
  {
  }

  /** A stream that is complete goes through at the END. */
  lemma Flushed(trace: seq<Event>, b: Snapshot, sack: bytes, cmd: byte, end: bytes, e: Ending)
    requires Streamed(b.compressed, [], true, b.expected - b.received, e.moved, e.flushed)
    requires e.shown <==> e.flushed && b.received + |Data(e.moved)| == b.expected
    requires trace == b.trace + e.moved +
      if e.shown then FinishEvents(b.pipe, sack, cmd, EndMode(end), EndEtag(b.newEtag, end), e.answers)
      else RefuseEvents(b.active, b.pipe, sack, cmd, e.answers)
    requires AllThere(b, trace) && GoodRun(b, trace)
    ensures e.shown
  {
    hide Satisfied, EndEtag, AllWell, Inflated, LastWord, Stuck, Data, FinishEvents, RefuseEvents;
    var answers := trace[|b.trace + e.moved|..];
    OnlyAnswers(b.active, b.pipe, sack, cmd, EndMode(end), EndEtag(b.newEtag, end), e.answers);
    assert trace == b.trace + e.moved + answers && trace[|b.trace|..] == e.moved + answers;
    if b.compressed {
      NoMoreInflated(answers);
      InflatedConcat(e.moved, answers);
      if !e.flushed {
        NeverStuck(trace, b, e.moved, answers, true);
      }
    } else {
      NoData();
    }
  }

  /** A fitting END of a complete transfer shows it once, and its name is then that of the END. */
  lemma EndWell(b: Snapshot, a: Snapshot, cmd: byte, end: bytes, e: Ending, ok: bool)
    requires EndDone(b, a, cmd, end, e, ok) && EndFits(b.active, b.pipe, b.partial, cmd, end)
    requires AllThere(b, a.trace) && GoodRun(b, a.trace)
    ensures ok && e.shown && OneRefresh(a.trace, |b.trace|) && a.displayedEtag == EndEtag(b.newEtag, end)
  {
    hide Fold, Flatten, SackFrame, FinishEvents, RefuseEvents, EndEtag, Satisfied, Stuck;
    hide OneRefresh, RefreshShows, AllWell, Data, Inflated, Swell, LastWord, Complete, Fed;
    var sack := SackFrame(0, b.nextSeq, b.pipeFrames);
    Flushed(a.trace, b, sack, cmd, end, e);
    WellAfter(a.trace, |b.trace|, |b.trace + e.moved|);
    FinishWell(a.trace, b.trace + e.moved, b.pipe, sack, cmd, EndMode(end), EndEtag(b.newEtag, end), e.answers);
    MovesNoRefresh(b.trace, e.moved, []);
    assert b.trace + e.moved + [] == b.trace + e.moved;
    NoneThenOne(b.trace + e.moved, a.trace, |b.trace|);
  }
}
