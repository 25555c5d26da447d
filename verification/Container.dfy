/** The configuration container of src/config_store.c: what od_config_validate accepts, and the
    packet walk that later readers do over an accepted container. */
module Container {
  import opened Bytes
  import opened Checksum

  const CONFIG_MAX := 768

  datatype Verdict = Valid | Invalid | Unsupported

  /** Payload size of a supported packet type, 0 for any other. */
  function PacketSize(kind: byte): nat {
    if kind == 1 || kind == 2 then 22
    else if kind == 4 then 30
    else if kind == 32 then 46
    else if kind == 39 then 64
    else if kind == 44 then 288
    else 0
  }

  /** The fixed-wiring checks on one packet's payload. */
  function FieldVerdict(kind: byte, p: bytes): Verdict
    requires |p| == PacketSize(kind) > 0
  {
    if kind == 1 && (p[0] != 255 || p[1] != 255 || p[2] != 1 || p[3] != 0 || p[4] != 255) then Unsupported
    else if kind == 4 && (p[6] != 0 || p[8] != 255 || p[9] != 255 || p[18] != 0 || p[19] != 0 || p[20] != 255
        || p[21] != 255)
    then Unsupported
    else if kind == 32 && !DisplayOk(p) then Unsupported
    else if kind == 39 && (p[0] > 1 || (p[0] != 0
        && forall i :: 1 <= i <= 16 ==> p[i] == 0) || p[19] != 0) then Unsupported
    else if kind == 44 && exists i :: 0 <= i < 9 && Unterminated(p, i) then Invalid
    else Valid
  }

  predicate DisplayOk(p: bytes)
    requires |p| == 46
  {
    p[0] == 0 && p[1] == 1 && p[2] == 19 && p[3] == 0 && p[4] == 104 && p[5] == 0 && p[6] == 212 && p[7] == 0
    && p[14] <= 3 && p[15] == 3 && p[16] == 4 && p[17] == 2 && p[18] == 1 && p[19] == 30 && p[20] <= 1
    && p[21] == 0 && p[22] & 0xe4 == 0 && p[23] == 0 && p[24] == 255
  }

  /** The i-th 32-byte string of an extended-data packet has no terminating zero. */
  predicate Unterminated(p: bytes, i: nat)
    requires |p| == 288 && i < 9
  {
    0 !in p[32 * i..32 * i + 32]
  }

  const REQUIRED: set<byte> := {1, 2, 4, 32}

  /** The packet walk from pos, having already seen the given types. */
  function Walk(data: bytes, pos: nat, seen: set<byte>): Verdict
    requires |data| >= 5
    decreases |data| - pos
  {
    var end := |data| - 2;
    if pos >= end then if REQUIRED <= seen then Valid else Invalid
    else if pos + 2 > end || data[pos] != 0 then Invalid
    else
      var kind := data[pos + 1];
      var size := PacketSize(kind);
      if size == 0 then Unsupported
      else if kind in seen || pos + 2 + size > end then Invalid
      else
        var v := FieldVerdict(kind, data[pos + 2..pos + 2 + size]);
        if v != Valid then v else Walk(data, pos + 2 + size, seen + {kind})
  }

  function Declared(data: bytes): nat
    requires |data| >= 2
  {
    Val(data[0]) + TWO_8 * Val(data[1])
  }

  /** What od_config_validate returns. */
  function Validate(data: bytes): Verdict {
    if |data| < 5 || |data| > CONFIG_MAX || data[2] != 1
       || (Declared(data) != 0 && Declared(data) != |data|)
       || !Checked(data)
    then Invalid
    else Walk(data, 3, {})
  }

  // ----- od_config_validate as it runs -----

  method CheckFields(kind: byte, p: bytes) returns (v: Verdict)
    requires |p| == PacketSize(kind) > 0
    ensures v == FieldVerdict(kind, p)
  {
    if kind == 1 && (p[0] != 255 || p[1] != 255 || p[2] != 1 || p[3] != 0 || p[4] != 255) {
      return Unsupported;
    }
    if kind == 4 && (p[6] != 0 || p[8] != 255 || p[9] != 255 || p[18] != 0 || p[19] != 0 || p[20] != 255
        || p[21] != 255) {
      return Unsupported;
    }
    if kind == 32 && !DisplayOk(p) {
      return Unsupported;
    }
    if kind == 39 {
      var key: byte := 0;
      for i := 1 to 17
        invariant key == 0 <==> forall j :: 1 <= j < i ==> p[j] == 0
      {
        OrZero(key, p[i]);
        key := key | p[i];
      }
      if p[0] > 1 || (p[0] != 0 && key == 0) || p[19] != 0 {
        return Unsupported;
      }
    }
    if kind == 44 {
      for i := 0 to 9
        invariant forall j :: 0 <= j < i ==> !Unterminated(p, j)
      {
        if 0 !in p[32 * i..32 * i + 32] {
          assert Unterminated(p, i);
          return Invalid;
        }
      }
    }
    v := Valid;
  }

  lemma OrZero(a: byte, b: byte)
    ensures a | b == 0 <==> a == 0 && b == 0
  {
  }

  method OdConfigValidate(data: bytes) returns (v: Verdict)
    ensures v == Validate(data)
  {
    hide Checked, FieldVerdict;
    if |data| < 5 || |data| > CONFIG_MAX || data[2] != 1
       || (Declared(data) != 0 && Declared(data) != |data|) {
      return Invalid;
    }
    var same := ChecksumMatches(data);
    if !same {
      return Invalid;
    }
    var seen: set<byte> := {};
    var pos := 3;
    while pos < |data| - 2
      invariant Walk(data, 3, {}) == Walk(data, pos, seen)
      decreases |data| - pos
    {
      if pos + 2 > |data| - 2 || data[pos] != 0 {
        return Invalid;
      }
      var kind := data[pos + 1];
      var size := PacketSize(kind);
      if size == 0 {
        return Unsupported;
      }
      if kind in seen || pos + 2 + size > |data| - 2 {
        return Invalid;
      }
      v := CheckFields(kind, data[pos + 2..pos + 2 + size]);
      if v != Valid {
        return;
      }
      seen := seen + {kind};
      pos := pos + 2 + size;
    }
    v := if REQUIRED <= seen then Valid else Invalid;
  }

  method ChecksumMatches(data: bytes) returns (same: bool)
    requires |data| >= 2
    ensures same <==> Checked(data)
  {
    hide Crc, Stored;
    var c := ComputeCrc(data[..|data| - 2], true);
    same := c == Stored(data);
  }

  // ----- the reader -----

  /** A packet: its type and where its payload starts. */
  datatype Packet = Packet(kind: byte, at: nat)

  /** The packets from pos to the end of the data. */
  function Packets(data: bytes, pos: nat): seq<Packet>
    decreases |data| - pos
  {
    if pos + 2 >= |data| then []
    else [Packet(data[pos + 1], pos + 2)] + Packets(data, pos + 2 + PacketSize(data[pos + 1]))
  }

  predicate InBounds(data: bytes, p: Packet) {
    PacketSize(p.kind) > 0 && p.at + PacketSize(p.kind) <= |data| - 2
  }

  /** What the validator has established about the packets of an accepted container: each lies
      within the data, no type occurs twice, and every required type occurs. */
  lemma {:induction false} AcceptedPackets(data: bytes, pos: nat, seen: set<byte>)
    requires |data| >= 5 && Walk(data, pos, seen) == Valid
    ensures forall p :: p in Packets(data, pos) ==> InBounds(data, p) && p.kind !in seen
    ensures forall i, j :: 0 <= i < j < |Packets(data, pos)| ==>
        Packets(data, pos)[i].kind != Packets(data, pos)[j].kind
    ensures forall k :: k in REQUIRED ==> k in seen || HasKind(Packets(data, pos), k)
    decreases |data| - pos
  {
    hide FieldVerdict, Packets, Walk, PacketSize, HasKind;
    if pos >= |data| - 2 {
      AcceptedEnd(data, pos, seen);
    } else {
      AcceptedStep(data, pos, seen);
      PacketsFrom(data, pos);
      var kind, next := data[pos + 1], pos + 2 + PacketSize(data[pos + 1]);
      AcceptedPackets(data, next, seen + {kind});
      var first, rest := Packet(kind, pos + 2), Packets(data, next);
      KindAt([first] + rest, 0);
      forall k | k in REQUIRED
        ensures k in seen || HasKind([first] + rest, k)
      {
        if k != kind && HasKind(rest, k) {
          KindCons(first, rest, k);
        }
      }
    }
  }

  /** Its fields are acceptable, too. */
  lemma {:induction false} AcceptedPacket(data: bytes, pos: nat, seen: set<byte>, p: Packet)
    requires |data| >= 5 && Walk(data, pos, seen) == Valid && p in Packets(data, pos)
    ensures InBounds(data, p) && FieldVerdict(p.kind, data[p.at..p.at + PacketSize(p.kind)]) == Valid
    decreases |data| - pos
  {
    hide FieldVerdict, PacketSize;
    if pos >= |data| - 2 {
      AcceptedEnd(data, pos, seen);
    } else {
      AcceptedStep(data, pos, seen);
      PacketsFrom(data, pos);
      if p != Packet(data[pos + 1], pos + 2) {
        AcceptedPacket(data, pos + 2 + PacketSize(data[pos + 1]), seen + {data[pos + 1]}, p);
      }
    }
  }

  lemma AcceptedEnd(data: bytes, pos: nat, seen: set<byte>)
    requires |data| >= 5 && pos >= |data| - 2 && Walk(data, pos, seen) == Valid
    ensures Packets(data, pos) == [] && REQUIRED <= seen
  {
  }

  lemma AcceptedStep(data: bytes, pos: nat, seen: set<byte>)
    requires |data| >= 5 && pos < |data| - 2 && Walk(data, pos, seen) == Valid
    ensures var kind := data[pos + 1];
            kind !in seen && InBounds(data, Packet(kind, pos + 2))
            && Walk(data, pos + 2 + PacketSize(kind), seen + {kind}) == Valid
  {
    hide FieldVerdict, PacketSize;
  }

  lemma PacketsFrom(data: bytes, pos: nat)
    requires pos + 2 < |data|
    ensures Packets(data, pos) ==
      [Packet(data[pos + 1], pos + 2)] + Packets(data, pos + 2 + PacketSize(data[pos + 1]))
  {
    hide PacketSize;
  }

  // ----- what is accepted, put together instead of taken apart

  /** A packet with its payload. */
  datatype Item = Item(kind: byte, payload: bytes)

  /** Packets one behind the other. */
  function Joined(items: seq<Item>): bytes {
    if items == [] then [] else [0, items[0].kind] + items[0].payload + Joined(items[1..])
  }

  /** Packets of known types, of their sizes, with acceptable fields, no type twice and none of these. */
  predicate Sound(items: seq<Item>, seen: set<byte>) {
    && (forall i :: 0 <= i < |items| ==> SoundItem(items[i]) && items[i].kind !in seen)
    && forall i, j :: 0 <= i < j < |items| ==> items[i].kind != items[j].kind
  }

  predicate SoundItem(p: Item) {
    |p.payload| == PacketSize(p.kind) > 0 && FieldVerdict(p.kind, p.payload) == Valid
  }

  predicate Has(items: seq<Item>, kind: byte) {
    exists i :: 0 <= i < |items| && items[i].kind == kind
  }

  predicate Covers(items: seq<Item>, seen: set<byte>) {
    forall k :: k in REQUIRED ==> k in seen || Has(items, k)
  }

  lemma {:induction false} AcceptsJoined(data: bytes, pos: nat, seen: set<byte>, items: seq<Item>)
    requires |data| >= 5 && pos <= |data| - 2 && data[pos..|data| - 2] == Joined(items)
    requires Sound(items, seen) && Covers(items, seen)
    ensures Walk(data, pos, seen) == Valid
    decreases |items|
  {
    hide FieldVerdict, PacketSize, Has;
    var end := |data| - 2;
    if items == [] {
      NoneHas();
    } else {
      var p, rest := items[0], items[1..];
      var next := pos + 2 + |p.payload|;
      FirstItem(data, pos, end, items);
      CoversRest(items, seen);
      AcceptsJoined(data, next, seen + {p.kind}, rest);
    }
  }

  /** Where the first of some packets lies in the data. */
  lemma FirstItem(data: bytes, pos: nat, end: nat, items: seq<Item>)
    requires items != [] && pos <= end <= |data| && data[pos..end] == Joined(items)
    ensures var next := pos + 2 + |items[0].payload|;
            && next <= end && data[pos] == 0 && data[pos + 1] == items[0].kind
            && data[pos + 2..next] == items[0].payload && data[next..end] == Joined(items[1..])
  {
    var s, n := data[pos..end], |items[0].payload|;
    assert s == [0, items[0].kind] + items[0].payload + Joined(items[1..]);
    assert data[pos] == s[0] && data[pos + 1] == s[1];
    SliceOfSlice(data, pos, end, 2, 2 + n);
    SliceOfSlice(data, pos, end, 2 + n, |s|);
    assert s[2..2 + n] == items[0].payload && s[2 + n..|s|] == Joined(items[1..]);
  }

  lemma SliceOfSlice(s: bytes, from: nat, to: nat, i: nat, j: nat)
    requires from <= to <= |s| && i <= j <= to - from
    ensures s[from..to][i..j] == s[from + i..from + j]
  {
    forall m | 0 <= m < j - i
      ensures s[from..to][i..j][m] == s[from + i..from + j][m]
    {
    }
  }

  lemma NoneHas()
    ensures forall k :: !Has([], k)
  {
  }

  lemma CoversRest(items: seq<Item>, seen: set<byte>)
    requires items != [] && Sound(items, seen) && Covers(items, seen)
    ensures Sound(items[1..], seen + {items[0].kind}) && Covers(items[1..], seen + {items[0].kind})
  {
    hide SoundItem;
    forall k | k in REQUIRED && k !in seen && k != items[0].kind
      ensures Has(items[1..], k)
    {
      var i :| 0 <= i < |items| && items[i].kind == k;
      assert items[1..][i - 1].kind == k;
    }
  }

  lemma {:induction false} AcceptedIsJoined(data: bytes, pos: nat, seen: set<byte>) returns (items: seq<Item>)
    requires |data| >= 5 && pos <= |data| - 2 && Walk(data, pos, seen) == Valid
    ensures data[pos..|data| - 2] == Joined(items) && Sound(items, seen) && Covers(items, seen)
    decreases |data| - pos
  {
    hide FieldVerdict, PacketSize, Has, Sound, Covers;
    var end := |data| - 2;
    if pos >= end {
      items := [];
      NoItems(seen);
    } else {
      var kind := data[pos + 1];
      var next := pos + 2 + PacketSize(kind);
      var p := Item(kind, data[pos + 2..next]);
      var rest := AcceptedIsJoined(data, next, seen + {kind});
      items := [p] + rest;
      assert items[1..] == rest;
      assert data[pos..end] == [0, kind] + data[pos + 2..next] + data[next..end];
      SoundMore(p, rest, seen);
    }
  }

  lemma NoItems(seen: set<byte>)
    ensures Sound([], seen) && (REQUIRED <= seen ==> Covers([], seen))
  {
  }

  lemma SoundMore(p: Item, rest: seq<Item>, seen: set<byte>)
    requires SoundItem(p) && p.kind !in seen && Sound(rest, seen + {p.kind}) && Covers(rest, seen + {p.kind})
    ensures Sound([p] + rest, seen) && Covers([p] + rest, seen)
  {
    hide SoundItem, Has;
    HasMore(p, rest);
  }

  lemma HasMore(p: Item, rest: seq<Item>)
    ensures forall k :: k == p.kind || Has(rest, k) ==> Has([p] + rest, k)
  {
    var all := [p] + rest;
    forall k | k == p.kind || Has(rest, k)
      ensures Has(all, k)
    {
      if k == p.kind {
        assert all[0].kind == k;
      } else {
        var i :| 0 <= i < |rest| && rest[i].kind == k;
        assert all[i + 1].kind == k;
      }
    }
  }

  /** A container put together as docs/protocol.md describes it: a length that is zero or right, version
      1, packets, and the checksum of all before it with the length counted as zero, low byte first. */
  ghost predicate WellFormed(data: bytes) {
    && 5 <= |data| <= 768
    && (Val(data[0]) + 256 * Val(data[1]) == 0 || Val(data[0]) + 256 * Val(data[1]) == |data|) && data[2] == 1
    && (var n := |data| - 2;
        CrcFrom(0xffff, [0, 0] + data[2..n]) == (data[n] as bv16) | ((data[n + 1] as bv16) << 8))
    && exists items :: data[3..|data| - 2] == Joined(items) && Sound(items, {}) && Covers(items, {})
  }

  /** The validator accepts exactly such containers. */
  lemma AcceptsExactly(data: bytes)
    ensures Validate(data) == Valid <==> WellFormed(data)
  {
    hide CrcFrom, Walk, Sound, Covers, Joined;
    if 5 <= |data| <= 768 {
      var n := |data| - 2;
      assert Covered(data[..n], true) == [0, 0] + data[2..n];
      if Walk(data, 3, {}) == Valid {
        var items := AcceptedIsJoined(data, 3, {});
      }
      if items :| data[3..n] == Joined(items) && Sound(items, {}) && Covers(items, {}) {
        AcceptsJoined(data, 3, {}, items);
      }
    }
  }

  function Kinds(items: seq<Item>): set<byte> {
    set i | 0 <= i < |items| :: items[i].kind
  }

  lemma {:induction false} WalkSkips(data: bytes, pos: nat, q: nat, seen: set<byte>, items: seq<Item>)
    requires |data| >= 5 && pos <= q <= |data| - 2 && data[pos..q] == Joined(items) && Sound(items, seen)
    ensures Walk(data, pos, seen) == Walk(data, q, seen + Kinds(items))
    decreases |items|
  {
    hide FieldVerdict, PacketSize, Kinds, Sound;
    NoKinds();
    if items == [] {
      assert pos == q && seen + Kinds([]) == seen;
    } else {
      var p, rest := items[0], items[1..];
      var next := pos + 2 + |p.payload|;
      FirstSound(items, seen);
      FirstItem(data, pos, q, items);
      SoundRest(items, seen);
      WalkSkips(data, next, q, seen + {p.kind}, rest);
      assert seen + {p.kind} + Kinds(rest) == seen + Kinds(items);
    }
  }

  lemma NoKinds()
    ensures Kinds([]) == {}
  {
  }

  lemma FirstSound(items: seq<Item>, seen: set<byte>)
    requires items != [] && Sound(items, seen)
    ensures SoundItem(items[0]) && items[0].kind !in seen
  {
    hide SoundItem;
  }

  lemma SoundRest(items: seq<Item>, seen: set<byte>)
    requires items != [] && Sound(items, seen)
    ensures Sound(items[1..], seen + {items[0].kind}) && items[0].kind in Kinds(items)
    ensures {items[0].kind} + Kinds(items[1..]) == Kinds(items)
  {
    hide SoundItem;
    forall k | k in Kinds(items)
      ensures k in {items[0].kind} + Kinds(items[1..])
    {
      var i :| 0 <= i < |items| && items[i].kind == k;
      assert i > 0 ==> items[1..][i - 1].kind == k;
    }
  }

  /** What the verdict is when sound packets are followed by a bad one: unsupported for a type the board
      does not have and for fields it cannot honour, invalid for a packet that is malformed, repeated,
      cut off, or holds a string without end. */
  lemma FirstBadDecides(data: bytes, q: nat, items: seq<Item>)
    requires 5 <= |data| <= 768 && data[2] == 1 && Declared(data) in {0, |data|} && Checked(data)
    requires 3 <= q < |data| - 2 && data[3..q] == Joined(items) && Sound(items, {})
    ensures var end := |data| - 2;
            if q + 2 > end || data[q] != 0 then Validate(data) == Invalid
            else
              var kind := data[q + 1];
              var size := PacketSize(kind);
              && (kind !in {1, 2, 4, 32, 39, 44} ==> Validate(data) == Unsupported)
              && (kind in {1, 2, 4, 32, 39, 44} && (Has(items, kind) || q + 2 + size > end) ==>
                    Validate(data) == Invalid)
              && (kind in {1, 2, 4, 32, 39, 44} && !Has(items, kind) && q + 2 + size <= end
                  && FieldVerdict(kind, data[q + 2..q + 2 + size]) != Valid ==>
                    Validate(data) == if kind == 44 then Invalid else Unsupported)
  {
    hide Checked, FieldVerdict, Joined;
    WalkSkips(data, 3, q, {}, items);
    var end := |data| - 2;
    if q + 2 <= end {
      var kind := data[q + 1];
      assert Has(items, kind) <==> kind in Kinds(items);
      if PacketSize(kind) > 0 && q + 2 + PacketSize(kind) <= end {
        AcceptedFields(kind, data[q + 2..q + 2 + PacketSize(kind)]);
      }
    }
  }

  /** The fields an accepted packet may have: only this board and its panel of 104 x 212, a security
      packet that is on or off, and on only with a key, and strings that end. */
  lemma AcceptedFields(kind: byte, p: bytes)
    requires |p| == PacketSize(kind) > 0
    ensures FieldVerdict(kind, p) == Valid <==>
      && (kind == 1 ==> p[..5] == [0xff, 0xff, 1, 0, 0xff])
      && (kind == 4 ==> p[6] == p[18] == p[19] == 0 && p[8] == p[9] == p[20] == p[21] == 0xff)
      && (kind == 32 ==>
            && p[..4] == [0, 1, 19, 0] && Le(p[4..6]) == 104 && Le(p[6..8]) == 212
            && p[14] <= 3 && p[15..20] == [3, 4, 2, 1, 30] && p[20] <= 1 && p[21] == 0
            && p[22] & 0xe4 == 0 && p[23] == 0 && p[24] == 255)
      && (kind == 39 ==> (p[0] == 0 || (p[0] == 1 && Be(p[1..17]) != 0)) && p[19] == 0)
      && (kind == 44 ==> forall i :: 0 <= i < 9 ==> 0 in p[32 * i..32 * i + 32])
    ensures FieldVerdict(kind, p) != Valid ==> FieldVerdict(kind, p) == if kind == 44 then Invalid else Unsupported
  {
    hide Be, Le;
    if kind == 1 {
      assert p[..5] == [p[0], p[1], p[2], p[3], p[4]];
    } else if kind == 32 {
      PanelSize(p);
      assert p[..4] == [p[0], p[1], p[2], p[3]] && p[15..20] == [p[15], p[16], p[17], p[18], p[19]];
    } else if kind == 39 {
      KeyIsSet(p);
    } else if kind == 44 {
      if i :| 0 <= i < 9 && Unterminated(p, i) {
        assert 0 !in p[32 * i..32 * i + 32];
      } else {
        forall i | 0 <= i < 9
          ensures 0 in p[32 * i..32 * i + 32]
        {
          assert !Unterminated(p, i);
        }
      }
    }
  }

  lemma KeyIsSet(p: bytes)
    requires |p| >= 17
    ensures Be(p[1..17]) == 0 <==> forall i :: 1 <= i <= 16 ==> p[i] == 0
  {
    hide Be;
    KeyIsNumber(p[1..17]);
    if i :| 1 <= i <= 16 && p[i] != 0 {
      assert p[1..17][i - 1] != 0;
    }
  }

  lemma PanelSize(p: bytes)
    requires |p| == 46
    ensures Le(p[4..6]) == 104 <==> p[4] == 104 && p[5] == 0
    ensures Le(p[6..8]) == 212 <==> p[6] == 212 && p[7] == 0
  {
    hide Le;
    Digits(p[4], p[5], 0, 0);
    Digits(p[6], p[7], 0, 0);
    assert p[4..6] == [p[4], p[5]] && p[6..8] == [p[6], p[7]];
    SmallVals(p[4], p[5]);
    SmallVals(p[6], p[7]);
  }

  lemma SmallVals(a: byte, b: byte)
    ensures Val(a) + 256 * Val(b) == 104 <==> a == 104 && b == 0
    ensures Val(a) + 256 * Val(b) == 212 <==> a == 212 && b == 0
  {
    if Val(a) == 104 {
      ValInjective(a, 104);
    }
    if Val(a) == 212 {
      ValInjective(a, 212);
    }
    if Val(b) == 0 {
      ValInjective(b, 0);
    }
  }

  lemma {:induction false} KeyIsNumber(s: bytes)
    ensures Be(s) != 0 <==> exists i :: 0 <= i < |s| && s[i] != 0
  {
    if s == [] {
    } else {
      var n := |s| - 1;
      KeyIsNumber(s[..n]);
      if s[n] != 0 && Val(s[n]) == 0 {
        ValInjective(s[n], 0);
      }
      assert forall i :: 0 <= i < n ==> s[..n][i] == s[i];
    }
  }

  predicate HasKind(ps: seq<Packet>, k: byte) {
    exists i :: 0 <= i < |ps| && ps[i].kind == k
  }

  /** config_packet(): its own size table, which treats every unlisted type as 22 bytes. */
  function ReaderSize(kind: byte): nat {
    if kind == 4 then 30 else if kind == 32 then 46 else if kind == 39 then 64 else if kind == 44 then 288 else 22
  }

  /** On an accepted container the reader stays in bounds, stands only on the validator's packet
      boundaries, and finds the packet of a type exactly when there is one. */
  method ConfigPacket(data: bytes, kind: byte) returns (r: Option<nat>, ghost visited: seq<Packet>)
    requires Validate(data) == Valid
    ensures visited <= Packets(data, 3)
    ensures r.Some? ==> Packet(kind, r.value) in Packets(data, 3)
    ensures r.None? <==> !HasKind(Packets(data, 3), kind)
  {
    hide FieldVerdict, Checked, Validate, Walk, HasKind, Packets;
    ghost var all := Packets(data, 3);
    AcceptedWhole(data);
    NoKind(kind);
    visited := [];
    var pos := 3;
    while pos < |data| - 2
      invariant 3 <= pos && visited + Packets(data, pos) == all
      invariant !HasKind(visited, kind)
      decreases |data| - pos
    {
      var found := data[pos + 1];
      ghost var here := Packet(found, pos + 2);
      PacketsFrom(data, pos);
      assert all[|visited|] == here;
      assert InBounds(data, here);
      if found == kind {
        assert HasKind(all, kind) by { KindAt(all, |visited|); }
        return Some(pos + 2), visited;
      }
      KindSnoc(visited, here, kind);
      assert visited + [here] + Packets(data, pos + 2 + PacketSize(found)) == all;
      visited := visited + [here];
      pos := pos + ReaderSize(found) + 2;
    }
    NoPackets(data, pos);
    assert visited == all;
    r := None;
  }

  lemma AcceptedWhole(data: bytes)
    requires Validate(data) == Valid
    ensures |data| >= 5 && forall p :: p in Packets(data, 3) ==> InBounds(data, p)
  {
    hide Checked;
    AcceptedPackets(data, 3, {});
  }

  lemma NoPackets(data: bytes, pos: nat)
    requires pos >= |data| - 2
    ensures Packets(data, pos) == []
  {
  }

  lemma NoKind(kind: byte)
    ensures !HasKind([], kind)
  {
  }

  lemma KindAt(ps: seq<Packet>, i: nat)
    requires i < |ps|
    ensures HasKind(ps, ps[i].kind)
  {
  }

  lemma KindCons(p: Packet, ps: seq<Packet>, kind: byte)
    requires HasKind(ps, kind)
    ensures HasKind([p] + ps, kind)
  {
    var i :| 0 <= i < |ps| && ps[i].kind == kind;
    assert ([p] + ps)[i + 1].kind == kind;
  }

  lemma KindSnoc(ps: seq<Packet>, p: Packet, kind: byte)
    requires !HasKind(ps, kind) && p.kind != kind
    ensures !HasKind(ps + [p], kind)
  {
  }

  // ----- the built-in configuration -----

  const SYSTEM: bytes :=
    [0x00, 0x01, 0xff, 0xff, 0x01, 0x00, 0xff, 0x00]
    + [0x00, 0x00, 0x00, 0x00, 0x00, 0x00, 0x00, 0x00]
    + [0x00, 0x00, 0x00, 0x00, 0x00, 0x00, 0xff, 0xff]
  const MAKER: bytes :=
    [0x00, 0x02, 0x00, 0x00, 0x00, 0x00, 0x00, 0x00]
    + [0x00, 0x00, 0x00, 0x00, 0x00, 0x00, 0x00, 0x00]
    + [0x00, 0x00, 0x00, 0x00, 0x00, 0x00, 0x00, 0x00]
  const POWER: bytes :=
    [0x00, 0x04, 0x01, 0x00, 0x00, 0x00, 0x00, 0x00]
    + [0x00, 0x00, 0xff, 0xff, 0x00, 0x04, 0x00, 0x00]
    + [0x00, 0x00, 0x00, 0x00, 0x00, 0x00, 0xff, 0xff]
    + [0x00, 0x00, 0x00, 0x00, 0x00, 0x00, 0x00, 0x00]
  const DISPLAY: bytes :=
    [0x00, 0x20, 0x00, 0x01, 0x13, 0x00, 0x68, 0x00]
    + [0xd4, 0x00, 0x17, 0x00, 0x30, 0x00, 0x00, 0x00]
    + [0x00, 0x03, 0x04, 0x02, 0x01, 0x1e, 0x01, 0x00]
    + [0x1b, 0x00, 0xff, 0x00, 0x00, 0x00, 0x00, 0x00]
    + [0x00, 0x00, 0x00, 0x00, 0x00, 0x00, 0x00, 0x00]
    + [0x00, 0x00, 0x00, 0x00, 0x00, 0x00, 0x00, 0x00]

  /** od_config of src/config.inc. */
  const DEFAULT: bytes := Assemble(SYSTEM, MAKER, POWER, DISPLAY, [0x9a, 0xdf])

  function Assemble(a: bytes, b: bytes, c: bytes, d: bytes, tail: bytes): bytes {
    [0x85, 0x00, 0x01] + a + b + c + d + tail
  }

  /** A whole byte of message at once: the register's high byte indexes the table. */
  function FastByte(c: bv16, b: byte): bv16 {
    Xor16(Formula(((c >> 8) as bv8) ^ b), c << 8)
  }

  function Formula(d: byte): bv16 {
    var x := (d ^ (d >> 4)) as bv16;
    (x << 12) ^ (x << 5) ^ x
  }

  function FastRow(c: bv16, s: bytes): bv16
    requires |s| == 8
  {
    FastByte(FastByte(FastByte(FastByte(FastByte(FastByte(FastByte(FastByte(c,
      s[0]), s[1]), s[2]), s[3]), s[4]), s[5]), s[6]), s[7])
  }

  lemma FastByteIsCrcByte(c: bv16, b: byte)
    ensures FastByte(c, b) == CrcByte(c, b)
  {
    hide CrcBits, Select, Xor16, Formula, High;
    var h := (c >> 8) as bv8;
    RippleIsTable(h ^ b);
    TableIsFormula(h ^ b);
    LowHalf(c);
    HighXor(h, b);
    XorSwap(High(h), c & 0xff, High(b));
    CrcBitsLinear(High(h ^ b), c & 0xff, 8);
    LowBits(c & 0xff);
  }

  lemma XorSwap(x: bv16, y: bv16, z: bv16)
    ensures Xor16(Xor16(x, y), z) == Xor16(Xor16(x, z), y)
  {
  }

  lemma LowHalf(c: bv16)
    ensures c == Xor16(High((c >> 8) as bv8), c & 0xff)
    ensures (c & 0xff) << 8 == c << 8 && (c & 0xff) & 0xff00 == 0
  {
  }

  lemma LowBits(x: bv16)
    requires x & 0xff00 == 0
    ensures CrcBits(x, 8) == x << 8
  {
    hide CrcBits;
    Unrolled(x);
  }

  lemma TableIsFormula(d: byte)
    ensures Select(d, RIPPLE) == Formula(d)
  {
  }

  lemma CrcSnoc(p: bytes, c: bv16, b: byte) returns (q: bytes, d: bv16)
    requires CrcFrom(0xffff, p) == c
    ensures q == p + [b] && d == FastByte(c, b) && CrcFrom(0xffff, q) == d
  {
    hide FastByte, CrcByte;
    FastByteIsCrcByte(c, b);
    q, d := p + [b], FastByte(c, b);
    assert q[..|p|] == p;
  }

  lemma CrcRow(p: bytes, before: bv16, s: bytes, after: bv16) returns (q: bytes)
    requires |s| == 8 && CrcFrom(0xffff, p) == before && FastRow(before, s) == after
    ensures q == p + s && CrcFrom(0xffff, q) == after
  {
    hide FastByte, CrcFrom;
    var c;
    q, c := CrcSnoc(p, before, s[0]);
    q, c := CrcSnoc(q, c, s[1]);
    q, c := CrcSnoc(q, c, s[2]);
    q, c := CrcSnoc(q, c, s[3]);
    q, c := CrcSnoc(q, c, s[4]);
    q, c := CrcSnoc(q, c, s[5]);
    q, c := CrcSnoc(q, c, s[6]);
    q, c := CrcSnoc(q, c, s[7]);
  }

  /** The inner checksum is CRC-16/CCITT-FALSE: over all bytes, with its check value for "123456789". */
  lemma CheckValue()
    ensures Crc([0x31, 0x32, 0x33, 0x34, 0x35, 0x36, 0x37, 0x38, 0x39], false) == 0x29b1
    ensures forall s :: Crc(s, false) == CrcFrom(0xffff, s)
  {
    hide CrcFrom, FastByte;
    forall s: bytes
      ensures Crc(s, false) == CrcFrom(0xffff, s)
    {
      assert Covered(s, false) == s;
    }
    EightDigits();
    NoCrc();
    var q := CrcRow([], 0xffff, [0x31, 0x32, 0x33, 0x34, 0x35, 0x36, 0x37, 0x38], 0xa12b);
    var c;
    q, c := CrcSnoc(q, 0xa12b, 0x39);
    assert q == [0x31, 0x32, 0x33, 0x34, 0x35, 0x36, 0x37, 0x38, 0x39];
  }

  lemma NoCrc()
    ensures CrcFrom(0xffff, []) == 0xffff
  {
  }

  lemma EightDigits()
    ensures FastRow(0xffff, [0x31, 0x32, 0x33, 0x34, 0x35, 0x36, 0x37, 0x38]) == 0xa12b
    ensures FastByte(0xa12b, 0x39) == 0x29b1
  {
  }

  lemma HeadChecksum()
    ensures CrcFrom(0xffff, [0, 0, 1]) == 0xdcbd
  {
    hide CrcByte;
    var q, c := CrcSnoc([], 0xffff, 0);
    q, c := CrcSnoc(q, c, 0);
    q, c := CrcSnoc(q, c, 1);
  }

  lemma SystemChecksum(p: bytes) returns (q: bytes)
    requires CrcFrom(0xffff, p) == 0xdcbd
    ensures q == p + SYSTEM && CrcFrom(0xffff, q) == 0xf5fe
  {
    hide CrcFrom;
    q := CrcRow(p, 0xdcbd, [0x00, 0x01, 0xff, 0xff, 0x01, 0x00, 0xff, 0x00], 0xfc16);
    q := CrcRow(q, 0xfc16, [0x00, 0x00, 0x00, 0x00, 0x00, 0x00, 0x00, 0x00], 0xca64);
    q := CrcRow(q, 0xca64, [0x00, 0x00, 0x00, 0x00, 0x00, 0x00, 0xff, 0xff], 0xf5fe);
  }

  lemma MakerChecksum(p: bytes) returns (q: bytes)
    requires CrcFrom(0xffff, p) == 0xf5fe
    ensures q == p + MAKER && CrcFrom(0xffff, q) == 0x86a8
  {
    hide CrcFrom;
    q := CrcRow(p, 0xf5fe, [0x00, 0x02, 0x00, 0x00, 0x00, 0x00, 0x00, 0x00], 0x78c0);
    q := CrcRow(q, 0x78c0, [0x00, 0x00, 0x00, 0x00, 0x00, 0x00, 0x00, 0x00], 0xd8c3);
    q := CrcRow(q, 0xd8c3, [0x00, 0x00, 0x00, 0x00, 0x00, 0x00, 0x00, 0x00], 0x86a8);
  }

  lemma PowerChecksum(p: bytes) returns (q: bytes)
    requires CrcFrom(0xffff, p) == 0x86a8
    ensures q == p + POWER && CrcFrom(0xffff, q) == 0x7c6f
  {
    hide CrcFrom;
    q := CrcRow(p, 0x86a8, [0x00, 0x04, 0x01, 0x00, 0x00, 0x00, 0x00, 0x00], 0xaf8e);
    q := CrcRow(q, 0xaf8e, [0x00, 0x00, 0xff, 0xff, 0x00, 0x04, 0x00, 0x00], 0x148a);
    q := CrcRow(q, 0x148a, [0x00, 0x00, 0x00, 0x00, 0x00, 0x00, 0xff, 0xff], 0x7761);
    q := CrcRow(q, 0x7761, [0x00, 0x00, 0x00, 0x00, 0x00, 0x00, 0x00, 0x00], 0x7c6f);
  }

  lemma DisplayChecksum(p: bytes) returns (q: bytes)
    requires CrcFrom(0xffff, p) == 0x7c6f
    ensures q == p + DISPLAY && CrcFrom(0xffff, q) == 0xdf9a
  {
    hide CrcFrom;
    q := CrcRow(p, 0x7c6f, [0x00, 0x20, 0x00, 0x01, 0x13, 0x00, 0x68, 0x00], 0x5e17);
    q := CrcRow(q, 0x5e17, [0xd4, 0x00, 0x17, 0x00, 0x30, 0x00, 0x00, 0x00], 0xbcee);
    q := CrcRow(q, 0xbcee, [0x00, 0x03, 0x04, 0x02, 0x01, 0x1e, 0x01, 0x00], 0x07c6);
    q := CrcRow(q, 0x07c6, [0x1b, 0x00, 0xff, 0x00, 0x00, 0x00, 0x00, 0x00], 0xaf8c);
    q := CrcRow(q, 0xaf8c, [0x00, 0x00, 0x00, 0x00, 0x00, 0x00, 0x00, 0x00], 0xa6b9);
    q := CrcRow(q, 0xa6b9, [0x00, 0x00, 0x00, 0x00, 0x00, 0x00, 0x00, 0x00], 0xdf9a);
  }

  lemma AssembledCover(a: bytes, b: bytes, c: bytes, d: bytes, tail: bytes)
    requires |tail| == 2
    ensures var s := Assemble(a, b, c, d, tail);
            && |s| == 5 + |a| + |b| + |c| + |d|
            && Covered(s[..|s| - 2], true) == [0, 0, 1] + a + b + c + d
  {
  }

  lemma DefaultChecksum()
    ensures |DEFAULT| == 133 && Crc(DEFAULT[..131], true) == 0xdf9a
  {
    hide CrcFrom, Assemble, Covered;
    HeadChecksum();
    var p := SystemChecksum([0, 0, 1]);
    p := MakerChecksum(p);
    p := PowerChecksum(p);
    p := DisplayChecksum(p);
    AssembledCover(SYSTEM, MAKER, POWER, DISPLAY, [0x9a, 0xdf]);
  }

  lemma AssembledPackets(a: bytes, b: bytes, c: bytes, d: bytes, tail: bytes)
    requires |a| == 24 && |b| == 24 && |c| == 32 && |d| == 48 && |tail| == 2
    ensures var s := Assemble(a, b, c, d, tail);
            && |s| == 133 && s[..3] == [0x85, 0, 1] && s[131..] == tail
            && s[3..27] == a && s[27..51] == b && s[51..83] == c && s[83..131] == d
  {
  }

  /** One accepted packet moves the walk on past it. */
  lemma WalkStep(data: bytes, pos: nat, seen: set<byte>, packet: bytes)
    requires 3 <= pos && |packet| >= 2 && pos + |packet| <= |data| - 2 && data[pos..pos + |packet|] == packet
    requires packet[0] == 0 && packet[1] !in seen && PacketSize(packet[1]) == |packet| - 2 > 0
    requires FieldVerdict(packet[1], packet[2..]) == Valid
    ensures Walk(data, pos, seen) == Walk(data, pos + |packet|, seen + {packet[1]})
  {
    hide FieldVerdict;
    assert data[pos] == packet[0] && data[pos + 1] == packet[1];
    assert data[pos + 2..pos + |packet|] == packet[2..];
  }

  lemma DefaultFields()
    ensures FieldVerdict(1, SYSTEM[2..]) == Valid && FieldVerdict(2, MAKER[2..]) == Valid
    ensures FieldVerdict(4, POWER[2..]) == Valid && FieldVerdict(32, DISPLAY[2..]) == Valid
  {
  }

  lemma AssembledWalk(d: bytes, tail: bytes)
    requires |d| == 48 && d[0] == 0 && d[1] == 32 && FieldVerdict(32, d[2..]) == Valid && |tail| == 2
    ensures Walk(Assemble(SYSTEM, MAKER, POWER, d, tail), 3, {}) == Valid
  {
    hide Assemble, FieldVerdict;
    var s := Assemble(SYSTEM, MAKER, POWER, d, tail);
    AssembledPackets(SYSTEM, MAKER, POWER, d, tail);
    DefaultFields();
    var none, one, two, three: set<byte> := {}, {1}, {1, 2}, {1, 2, 4};
    assert none + {1} == one && one + {2} == two && two + {4} == three && three + {32} == REQUIRED;
    WalkStep(s, 3, none, SYSTEM);
    WalkStep(s, 27, one, MAKER);
    WalkStep(s, 51, two, POWER);
    WalkStep(s, 83, three, d);
  }

  lemma AssembledHead(d: bytes, tail: bytes)
    requires |d| == 48 && |tail| == 2
    ensures var s := Assemble(SYSTEM, MAKER, POWER, d, tail);
            |s| == 133 && s[2] == 1 && Declared(s) == 133 && s[131] == tail[0] && s[132] == tail[1]
  {
    hide Assemble;
    AssembledPackets(SYSTEM, MAKER, POWER, d, tail);
    var s := Assemble(SYSTEM, MAKER, POWER, d, tail);
    assert s[131] == s[131..][0] && s[132] == s[131..][1];
    assert s[..3][0] == 0x85 && s[..3][1] == 0 && s[..3][2] == 1;
    assert Val(0x85) == 133 && Val(0) == 0;
  }

  /** The configuration compiled into the firmware passes the firmware's own validator. */
  lemma DefaultIsValid()
    ensures Validate(DEFAULT) == Valid
  {
    hide Assemble, FieldVerdict, Crc;
    DefaultChecksum();
    DefaultFields();
    AssembledHead(DISPLAY, [0x9a, 0xdf]);
    AssembledWalk(DISPLAY, [0x9a, 0xdf]);
    assert Word(0x9a, 0xdf) == 0xdf9a;
  }

  /** The built-in configuration with its last data byte and its low checksum byte changed. */
  const FORGED: bytes := Assemble(SYSTEM, MAKER, POWER, DISPLAY[47 := 0x89], [0x3b, 0xdf])

  lemma ForgedFields()
    ensures FieldVerdict(32, DISPLAY[47 := 0x89][2..]) == Valid && DISPLAY[47] == 0
  {
  }

  lemma ForgedDiffers(d: bytes, e: bytes, p: bytes, q: bytes)
    requires |d| == |e| == 48 && |p| == |q| == 2 && d[..47] == e[..47] && p[1] == q[1]
    ensures var s, t := Assemble(SYSTEM, MAKER, POWER, d, p), Assemble(SYSTEM, MAKER, POWER, e, q);
            && |s| == |t| == 133 && s[..130] == t[..130] && s[132..] == t[132..]
            && s[130] == d[47] && t[130] == e[47]
  {
  }

  /** Two accepted containers of the same length can differ in two adjacent bytes only: the
      exception in AdjacentChangeDetected is reached by a container the firmware accepts. */
  lemma UndetectedAdjacentChange()
    ensures |FORGED| == |DEFAULT| == 133 && FORGED != DEFAULT
    ensures FORGED[..130] == DEFAULT[..130] && FORGED[132..] == DEFAULT[132..]
    ensures Validate(DEFAULT) == Valid && Validate(FORGED) == Valid
  {
    hide Assemble, FieldVerdict, Checked, Walk;
    var e := DISPLAY[47 := 0x89];
    DefaultIsValid();
    ForgedFields();
    AssembledHead(DISPLAY, [0x9a, 0xdf]);
    AssembledHead(e, [0x3b, 0xdf]);
    AssembledWalk(e, [0x3b, 0xdf]);
    ForgedDiffers(DISPLAY, e, [0x9a, 0xdf], [0x3b, 0xdf]);
    AdjacentChangeDetected(DEFAULT, FORGED, 130);
  }

  /** What a change of two adjacent bytes does to the verdict itself: of two accepted containers of one
      length that differ nowhere else, either nothing changed or the change straddles the end of the
      data in that one pattern. */
  lemma AcceptedAdjacentChange(s: bytes, t: bytes, i: nat)
    requires Validate(s) == Valid && Validate(t) == Valid && |s| == |t|
    requires 2 <= i && i + 2 <= |s| && s[..i] == t[..i] && s[i + 2..] == t[i + 2..]
    ensures s == t || (i == |s| - 3 && s[i] ^ t[i] == 0x89 && s[i + 1] ^ t[i + 1] == 0xa1)
  {
    hide Checked, Walk;
    AdjacentChangeDetected(s, t, i);
  }
}
