/** The commands of docs/protocol.md and their answers byte by byte: what each field of a start means,
    which starts are refused and why, and what the answers look like. */
module Formats {
  import opened Bytes
  import opened Epd
  import opened Frames
  import opened PanelIo
  import opened Protocol
  import Container
  import DirectRuns
  import PipeRuns
  import Uploads

  // ----- whole images and regions

  /** A direct start of the whole panel is empty, or announces a stream of 2756 bytes, low byte first. */
  lemma WholeStartBytes(payload: bytes)
    ensures WholeStart(payload) <==> payload == [] || (4 <= |payload| <= 200 && payload[..4] == [0xc4, 0x0a, 0, 0])
  {
    hide Le, Val;
    if |payload| >= 4 {
      Digits(payload[0], payload[1], payload[2], payload[3]);
      assert payload[..4] == [payload[0], payload[1], payload[2], payload[3]];
      FrameSize(payload[0], payload[1], payload[2], payload[3]);
    }
  }

  lemma FrameSize(a: byte, b: byte, c: byte, d: byte)
    ensures Val(a) + 0x100 * Val(b) + 0x1_0000 * Val(c) + 0x100_0000 * Val(d) == 2756 <==>
      a == 0xc4 && b == 0x0a && c == 0 && d == 0
  {
    hide Val;
    SomeVals();
    if Val(a) + 0x100 * Val(b) + 0x1_0000 * Val(c) + 0x100_0000 * Val(d) == 2756 {
      assert Val(d) == 0;
      assert Val(c) == 0;
      assert Val(b) == 10;
      ValInjective(a, 0xc4);
      ValInjective(b, 0x0a);
      ValInjective(c, 0);
      ValInjective(d, 0);
    }
  }

  lemma SomeVals()
    ensures Val(0xc4) == 196 && Val(0x0a) == 10 && Val(0) == 0
  {
  }

  /** The fields of a partial start, each most significant byte first. */
  datatype Region = Region(base: nat, name: nat, x: nat, y: nat, w: nat, h: nat)

  function RegionFields(p: bytes): Region
    requires |p| >= 17
  {
    Region(Be(p[1..5]), Be(p[5..9]), Be(p[9..11]), Be(p[11..13]), Be(p[13..15]), Be(p[15..17]))
  }

  /** The same fields in a PIPE start, least significant byte first and without a name. */
  function PipeFields(p: bytes): Region
    requires |p| == 22
  {
    Region(Le(p[10..14]), 0, Le(p[14..16]), Le(p[16..18]), Le(p[18..20]), Le(p[20..22]))
  }

  predicate OnPanel(r: Region) {
    r.w > 0 && r.h > 0 && r.x + r.w <= 104 && r.y + r.h <= 212
  }

  predicate Aligned(r: Region) {
    r.x % 8 == 0 && r.w % 8 == 0
  }

  /** A partial start is turned away for its length, its flags, the image it is based on or names, its
      place, and its alignment, whichever comes first, and only for these. */
  lemma PartialRefusalBytes(p: bytes, shown: nat)
    ensures |p| < 17 ==> PartialRefusal(p, shown) == 6
    ensures |p| >= 17 ==>
      var r, code := RegionFields(p), PartialRefusal(p, shown);
      var named := r.name != 0 && r.base != 0 && r.base == shown;
      && (p[0] !in {0, 1} ==> code == 5)
      && (p[0] in {0, 1} && !named ==> code == 1)
      && (p[0] in {0, 1} && named && !OnPanel(r) ==> code == 3)
      && (p[0] in {0, 1} && named && OnPanel(r) && !Aligned(r) ==> code == 4)
      && (p[0] in {0, 1} && named && OnPanel(r) && Aligned(r) ==> code == 0)
  {
    hide Be;
  }

  /** A PIPE start is turned away with 1 for its length, version, window, interval or frame size, 2 for
      flags it does not know, and 3 for a size that is not that of its image. */
  lemma PipeRefusalBytes(p: bytes)
    ensures var code := PipeRefusal(p);
            if |p| < 10 || p[0] != 1 || p[2] == 0 || p[3] == 0 || Le(p[4..6]) < 4 then code == 1
            else if p[1] > 3 then code == 2
            else if |p| != (if p[1] in {2, 3} then 22 else 10) then code == 1
            else
              var size := if |p| == 22 then PipeFields(p).w / 8 * PipeFields(p).h * 2 else 2756;
              code == if Le(p[6..10]) == size then 0 else 3
  {
    hide Le;
    if |p| >= 2 {
      FlagBits(p[1]);
    }
  }

  lemma FlagBits(f: byte)
    ensures f & 0xfc == 0 <==> f <= 3
    ensures f <= 3 ==> (f & 2 != 0 <==> f == 2 || f == 3) && (f & 1 != 0 <==> f == 1 || f == 3)
  {
  }

  /** And a region for the image it is based on, its place and its alignment. */
  lemma PipeRegionBytes(p: bytes, shown: nat)
    requires |p| == 22
    ensures var r, code := PipeFields(p), PipeRegionRefusal(p, shown);
            && (code == 1 <==> r.base == 0 || r.base != shown)
            && (code == 3 <==> code != 1 && !OnPanel(r))
            && (code == 4 <==> code != 1 && OnPanel(r) && !Aligned(r))
            && code in {0, 1, 3, 4}
  {
    hide Le;
  }

  /** What opens the panel, and over what. */
  lemma OpeningBytes(p: bytes, began: bool)
    ensures |p| >= 17 ==>
      var r := RegionFields(p); PartialWindow(p, began) == Windowed(r.base, r.x, r.y, r.w, r.h, began)
    ensures PipeOpening(p, began) ==
      if |p| != 22 then Begun(began)
      else var r := PipeFields(p); Windowed(r.base, r.x, r.y, r.w, r.h, began)
  {
    hide Be, Le;
  }

  /** What a direct or partial start announces: the size of its image, whether it is compressed, the data
      that comes along, and the image's name. */
  lemma DirectBytes(p: bytes)
    ensures DirectRuns.Announcement(0x70, p) == Uploads.Form(2756, p != [])
    ensures DirectRuns.First(0x70, p) == (if |p| < 4 then [] else [p[4..]]) && DirectRuns.NewName(0x70, p) == 0
    ensures |p| >= 17 ==>
      var r := RegionFields(p);
      && DirectRuns.Announcement(0x76, p) == Uploads.Form(r.w / 8 * r.h * 2, p[0] == 1)
      && DirectRuns.First(0x76, p) == [p[17..]] && DirectRuns.NewName(0x76, p) == r.name
  {
    hide Be;
  }

  /** What a well-formed PIPE start announces, the frames that may follow, and the answer: window and
      interval 1, the frame size that results, and a flag for a region. */
  lemma PipeBytes(p: bytes)
    requires PipeRefusal(p) == 0
    ensures PipeRuns.Announcement(p) == Uploads.Form(Le(p[6..10]), p[1] in {1, 3})
    ensures PipeFrame(p) == if Le(p[4..6]) <= 244 then Le(p[4..6]) else 244
    ensures var r := PipeAccept(PipeFrame(p), |p| == 22);
            && |r| == 8 && r[..5] == [0x00, 0x80, 1, 1, 1] && Le(r[5..7]) == PipeFrame(p)
            && r[7] == if |p| == 22 then 3 else 1
  {
    hide Le, LeBytes;
    FlagBits(p[1]);
    Pow256Values();
    LeOfLeBytes(PipeFrame(p), 2);
    var r := PipeAccept(PipeFrame(p), |p| == 22);
    assert r[5..7] == LeBytes(PipeFrame(p), 2);
  }

  // ----- answers

  /** The end of a transfer when everything is answered: the last acknowledgement of a PIPE one, the END's
      own, the refresh, and its result. */
  lemma EndAnswers(sack: bytes, cmd: byte, mode: byte, etag: nat, refreshed: bool)
    ensures var a := Answers(true, true, refreshed, true);
            var shown, told := Finished(mode, etag, refreshed), Sent([0x00, if refreshed then 0x73 else 0x74], true);
            && FinishEvents(false, sack, cmd, mode, etag, a) == [Sent([0x00, cmd], true), shown, told]
            && FinishEvents(true, sack, cmd, mode, etag, a) ==
                 [Sent(sack, true), Sent([0x00, cmd], true), shown, told]
    ensures var a := Answers(true, true, false, true);
            && RefuseEvents(true, false, sack, 0x72, a) == [Aborted, Sent([0xff, 0x72], true)]
            && RefuseEvents(true, true, sack, 0x82, a) == [Sent(sack, true), Aborted, Sent([0xff, 0x82], true)]
  {
  }

  /** A version request is answered with 0.5, the revision behind its length, and patch 0; the others with
      the code that says they are not to be had here, and anything unknown is refused. */
  lemma InfoBytes(sha: bytes, payload: bytes)
    requires |sha| < 256
    ensures var r := InfoReply(sha, 0x43, []);
            && |r| == 6 + |sha| && r[..4] == [0x00, 0x43, 0, 5] && Val(r[4]) == |sha| && r[5..5 + |sha|] == sha
            && r[5 + |sha|] == 0
    ensures payload != [] ==> InfoReply(sha, 0x43, payload) == [0xff, 0x43]
    ensures InfoReply(sha, 0x50, payload) == [0x00, 0x50, 3]
    ensures InfoReply(sha, 0x52, payload) == [0xff, 0x52, 0, 0] && InfoReply(sha, 0x53, payload) == [0xff, 0x53, 0, 0]
    ensures InfoReply(sha, 0x83, payload) == [0xff, 0x83, 0xff, if payload == [] || payload[0] == 0 then 2 else 3]
    ensures forall cmd: byte :: cmd !in {0x43, 0x50, 0x52, 0x53, 0x83} ==> InfoReply(sha, cmd, payload) == [0xff, cmd]
  {
    hide Val, ToByte;
  }

  /** A well-formed PIPE start that is turned away after all says why: another image 5, a place or an
      alignment 7, and a panel that does not open 7 for a region and 3 for a whole image. */
  lemma PipeStartAnswers(b: Snapshot, trace: seq<Event>, p: bytes, r: Started, ok: bool)
    requires PipeStarted(b, trace, p, r, ok) && !r.accepted
    ensures trace != [] && trace[|trace| - 1].Sent?
    ensures var code := PipeRefusal(p);
            var why: byte :=
              if code != 0 then code
              else if |p| == 10 then 3
              else if PipeFields(p).base == 0 || PipeFields(p).base != NamedBase(b) then 5
              else 7;
            trace[|trace| - 1] == Sent([0xff, 0x80, why, 0x00], ok)
  {
    hide Le;
  }

  /** A PIPE frame that is fatal says why, and then the transfer is aborted: 2 for compressed data and 3 for
      raw data that does not go through, 4 for a number that is neither due nor recent and for a size
      that does not fit. */
  lemma RejectionBytes(b: Snapshot, a: Snapshot, p: bytes, o: Outcome, ok: bool)
    requires FrameDone(b, a, p, o, ok) && o.Rejected?
    ensures |a.trace| >= 2 && a.trace[|a.trace| - 1] == Aborted && a.trace[|a.trace| - 2].Sent?
    ensures var sack := a.trace[|a.trace| - 2].data;
            var due := 2 <= |p| && |p| + 2 <= b.pipeFrame && Val(p[0]) == b.nextSeq;
            |sack| == 8 && sack[..3] == [0xff, 0x81, if !due then 4 else if b.compressed then 2 else 3]
  {
    hide Streamed, SackMask, LeBytes, Val;
  }

  // ----- the configuration

  /** A start with 202 bytes carries a total, low byte first, above 200 and at most 768, and the first 200
      bytes; one with 5 to 200 is a whole configuration, which has to validate. */
  lemma ConfigStartBytes(b: ConfigShot, a: ConfigShot, p: bytes, accepted: bool)
    requires ConfigStarted(b, a, p, accepted)
    ensures |p| == 202 ==>
      var total := Val(p[0]) + 256 * Val(p[1]);
      && (accepted <==> 200 < total <= 768 && a.faults == b.faults)
      && (accepted ==> a == ConfigShot(true, p[2..], total, b.effective, b.faults))
    ensures |p| != 202 ==>
      && (accepted <==> 5 <= |p| <= 200 && Container.Validate(p) == Container.Valid && a.faults == b.faults)
      && (accepted ==> a == ConfigShot(false, [], 0, p, b.faults))
    ensures !accepted ==> !a.writing && a.effective == b.effective
  {
    hide Container.Validate, Val, Le;
    if |p| == 202 {
      Digits(p[0], p[1], 0, 0);
      assert p[..2] == [p[0], p[1]];
    }
  }

  /** A chunk has 1 to 200 bytes and completes what it completes, and a clear brings the built-in
      configuration back. */
  lemma ConfigChunkBytes(b: ConfigShot, a: ConfigShot, p: bytes, accepted: bool)
    requires ConfigGrown(b, a, p, accepted) && b.expected <= 768
    ensures accepted <==>
      && b.writing && 1 <= |p| <= 200 && |b.open| + |p| <= b.expected && a.faults == b.faults
      && (|b.open| + |p| == b.expected ==> Container.Validate(b.open + p) == Container.Valid)
    ensures accepted ==>
      if |b.open| + |p| < b.expected then a.writing && a.open == b.open + p && a.effective == b.effective
      else !a.writing && a.effective == b.open + p
    ensures !accepted ==> !a.writing && a.effective == b.effective
  {
    hide Container.Validate;
  }

  lemma ConfigClearBytes(b: ConfigShot, a: ConfigShot, accepted: bool)
    requires ConfigCleared(b, a, [], accepted)
    ensures accepted <==> a.faults == b.faults
    ensures !a.writing && a.effective == if accepted then Container.DEFAULT else b.effective
  {
    hide Container.Assemble;
  }
}
