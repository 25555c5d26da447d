/** Frames the transfer protocol sends, and what a client can read out of them. */
module Frames {
  import opened Bytes

  const MAX_FRAME := 244
  const REPLY := 20

  function Reply(cmd: byte, ok: bool): bytes {
    [if ok then 0x00 else 0xff, cmd]
  }

  function ErrorReply(cmd: byte, code: byte): bytes {
    [0xff, cmd, code, 0]
  }

  /** The short answers, byte by byte: acknowledged, refused, refused with a code. */
  lemma AnswerBytes(cmd: byte, code: byte)
    ensures Reply(cmd, true) == [0x00, cmd] && Reply(cmd, false) == [0xff, cmd]
    ensures ErrorReply(cmd, code) == [0xff, cmd, code, 0x00]
  {
  }

  // ----- selective acknowledgements

  /** Bit i of v. */
  predicate Bit(v: nat, i: nat) {
    if i == 0 then v % 2 == 1 else Bit(v / 2, i - 1)
  }

  /** The p lowest bits set. */
  function BitsBelow(p: nat): nat {
    if p == 0 then 0 else 2 * BitsBelow(p - 1) + 1
  }

  lemma {:induction false} BitsBelowAt(p: nat, i: nat)
    ensures Bit(BitsBelow(p), i) <==> i < p
  {
    if i == 0 {
    } else if p == 0 {
      BitsBelowAt(0, i - 1);
    } else {
      assert BitsBelow(p) / 2 == BitsBelow(p - 1);
      BitsBelowAt(p - 1, i - 1);
    }
  }

  lemma BitsBelow32()
    ensures BitsBelow(32) == TWO_32 - 1
  {
    assert BitsBelow(8) == 0xff;
    assert BitsBelow(16) == 0xffff;
    assert BitsBelow(24) == 0xff_ffff;
  }

  lemma {:induction false} BitsBelowGrow(p: nat, q: nat)
    requires p <= q
    ensures BitsBelow(p) <= BitsBelow(q)
  {
    if p == q {
    } else {
      BitsBelowGrow(p, q - 1);
    }
  }

  function SackMask(accepted: nat): (v: nat)
    ensures v < TWO_32
  {
    var previous := if accepted == 0 then 0 else accepted - 1;
    BitsBelow32();
    if previous >= 32 then TWO_32 - 1 else BitsBelowGrow(previous, 32); BitsBelow(previous)
  }

  /** A SACK from the two wrapped frame counters: the next expected number, and the frames accepted. */
  function SackFrame(error: byte, next: nat, accepted: nat): bytes {
    [if error != 0 then 0xff else 0x00, 0x81] + (if error != 0 then [error] else [])
    + [ToByte((next + 255) % TWO_8)] + LeBytes(SackMask(accepted), 4)
  }

  /** The frame a client concludes was the last one accepted, and the mask of those before it. */
  function SackNumber(r: bytes): byte
    requires |r| >= 7
  {
    r[|r| - 5]
  }

  function SackBits(r: bytes): nat
    requires |r| >= 7
  {
    Le(r[|r| - 4..])
  }

  /** The mask tells of each of the 32 frames before the last of m whether it exists. */
  predicate MaskExact(mask: nat, m: nat) {
    forall i :: 0 <= i < 32 ==> (Bit(mask, i) <==> i + 1 < m)
  }

  lemma MaskIsExact(m: nat)
    requires m > 0
    ensures MaskExact(SackMask(m % TWO_32), m) <==> m < TWO_32 || m % TWO_32 > 32
  {
    hide BitsBelow, Bit;
    var a := m % TWO_32;
    var previous := if a == 0 then 0 else a - 1;
    BitsBelow32();
    forall i | 0 <= i < 32
      ensures Bit(SackMask(a), i) <==> i < previous
    {
      BitsBelowAt(if previous >= 32 then 32 else previous, i);
    }
    if m >= TWO_32 && a <= 32 {
      assert !Bit(SackMask(a), 31);
    }
  }

  /** After m > 0 accepted frames a SACK names frame m - 1, and its mask is exact until the 32-bit
      frame count wraps, and again once it is more than 32 beyond a wrap. */
  lemma SackDescribes(error: byte, m: nat)
    requires m > 0
    ensures var r := SackFrame(error, m % TWO_8, m % TWO_32);
            && |r| == (if error == 0 then 7 else 8)
            && r[..|r| - 5] == (if error == 0 then [0x00, 0x81] else [0xff, 0x81, error])
            && Val(r[|r| - 5]) == (m - 1) % 256
            && (MaskExact(Le(r[|r| - 4..]), m) <==> m < TWO_32 || m % TWO_32 > 32)
  {
    hide MaskExact, SackFrame, SackMask, Val;
    SackHead(error, m % TWO_8, m % TWO_32);
    SackReads(error, m % TWO_8, m % TWO_32);
    MaskIsExact(m);
    PredMod(m);
  }

  lemma SackHead(error: byte, next: nat, accepted: nat)
    ensures var r := SackFrame(error, next, accepted);
            && |r| == (if error == 0 then 7 else 8)
            && r[..|r| - 5] == if error == 0 then [0x00, 0x81] else [0xff, 0x81, error]
  {
    hide SackMask, LeBytes;
  }

  lemma PredMod(m: nat)
    requires m > 0
    ensures (m % TWO_8 + 255) % TWO_8 == (m - 1) % TWO_8
  {
  }

  lemma SackReads(error: byte, next: nat, accepted: nat)
    ensures var r := SackFrame(error, next, accepted);
            |r| >= 7 && Val(SackNumber(r)) == (next + 255) % TWO_8 && SackBits(r) == SackMask(accepted)
  {
    hide SackMask;
    var mask := LeBytes(SackMask(accepted), 4);
    var r := SackFrame(error, next, accepted);
    assert r[|r| - 4..] == mask;
    Pow256Values();
    LeOfLeBytes(SackMask(accepted), 4);
  }

  // ----- reading the configuration

  function ChunkSize(chunk: nat): nat {
    if chunk == 0 then REPLY - 6 else REPLY - 4
  }

  function ConfigReply(c: bytes, offset: nat, chunk: nat): (r: bytes)
    requires offset <= |c|
  {
    var n := if |c| - offset < ChunkSize(chunk) then |c| - offset else ChunkSize(chunk);
    [0x00, 0x40] + LeBytes(chunk, 2) + (if chunk == 0 then LeBytes(|c|, 2) else []) + c[offset..offset + n]
  }

  /** The replies to a configuration read, from this chunk on. */
  function ConfigReplies(c: bytes, offset: nat, chunk: nat): seq<bytes>
    decreases |c| - offset
  {
    if offset >= |c| then []
    else [ConfigReply(c, offset, chunk)] + ConfigReplies(c, offset + ChunkSize(chunk), chunk + 1)
  }

  /** What a client puts together from the replies, the first of which carries the length. */
  function Reassembled(replies: seq<bytes>, chunk: nat): bytes {
    if replies == [] then []
    else
      var header := if chunk == 0 then 6 else 4;
      (if |replies[0]| < header then [] else replies[0][header..]) + Reassembled(replies[1..], chunk + 1)
  }

  /** Reading back: the replies are numbered in order, fit the reply size, announce the length,
      and their payloads make up the configuration. */
  lemma {:induction false} ConfigRoundTrip(c: bytes, offset: nat, chunk: nat)
    requires offset <= |c| < TWO_16 && chunk <= offset
    ensures var rs := ConfigReplies(c, offset, chunk);
            && Reassembled(rs, chunk) == c[offset..]
            && (forall i :: 0 <= i < |rs| ==>
                  4 <= |rs[i]| <= 20 && rs[i][..2] == [0x00, 0x40] && Le(rs[i][2..4]) == chunk + i)
            && (chunk == 0 && rs != [] ==> |rs[0]| >= 6 && Le(rs[0][4..6]) == |c|)
    decreases |c| - offset
  {
    hide Le, LeBytes;
    if offset == |c| {
    } else {
      var r, rest := ConfigReply(c, offset, chunk), ConfigReplies(c, offset + ChunkSize(chunk), chunk + 1);
      Pow256Values();
      LeOfLeBytes(chunk, 2);
      LeOfLeBytes(|c|, 2);
      assert r[..2] == [0x00, 0x40] && r[2..4] == LeBytes(chunk, 2);
      assert chunk == 0 ==> r[4..6] == LeBytes(|c|, 2);
      assert ([r] + rest)[1..] == rest;
      if offset + ChunkSize(chunk) <= |c| {
        ConfigRoundTrip(c, offset + ChunkSize(chunk), chunk + 1);
        assert c[offset..] == c[offset..offset + ChunkSize(chunk)] + c[offset + ChunkSize(chunk)..];
      }
    }
  }
}
