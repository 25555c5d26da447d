/** The panel driver of src/epd.c at byte level: what goes over SPI, when the panel sleeps, and
    how a client stream is split over the two image planes. */
module Epd {
  import opened Bytes

  const WIDTH := 104
  const HEIGHT := 212
  const FRAME_BYTES := 2756

  /** What the panel sees: command and data bytes, a read of its BUSY line, a reset pulse. */
  datatype Bus = Command(b: byte) | Datum(b: byte) | BusyRead(busy: bool) | ResetPulse

  /** The panel is in deep sleep: 07 a5 was sent and no reset pulse since. */
  predicate Asleep(bus: seq<Bus>) {
    if bus == [] then false
    else
      var n := |bus| - 1;
      match bus[n]
      case ResetPulse => false
      case Datum(b) => (b == 0xa5 && n > 0 && bus[n - 1] == Command(0x07)) || Asleep(bus[..n])
      case _ => Asleep(bus[..n])
  }

  /** Nothing but a reset pulse ever reaches a sleeping panel. */
  predicate Disciplined(bus: seq<Bus>) {
    forall i :: 0 <= i < |bus| ==> bus[i] == ResetPulse || !Asleep(bus[..i])
  }

  function Shown(s: bytes): (r: seq<Bus>)
    ensures |r| == |s|
  {
    seq(|s|, i requires 0 <= i < |s| => Datum(s[i]))
  }

  function Complement(s: bytes): (r: bytes)
    ensures |r| == |s|
  {
    seq(|s|, i requires 0 <= i < |s| => !s[i])
  }

  /** A client stream on the bus behind command 10: the old plane complemented, then command 13 and
      the new plane complemented. */
  function Planes(n: nat, s: bytes): seq<Bus> {
    if |s| <= n then Shown(Complement(s)) else Shown(Complement(s[..n])) + [Command(0x13)] + Shown(Complement(s[n..]))
  }

  lemma ComplementSnoc(s: bytes, b: byte)
    ensures Shown(Complement(s + [b])) == Shown(Complement(s)) + [Datum(!b)]
  {
    assert Complement(s + [b]) == Complement(s) + [!b];
  }

  lemma PlanesSnoc(n: nat, s: bytes, b: byte)
    ensures Planes(n, s + [b]) == Planes(n, s) + (if |s| == n then [Command(0x13)] else []) + [Datum(!b)]
  {
    hide Shown, Complement;
    if |s| < n {
      ComplementSnoc(s, b);
    } else {
      assert (s + [b])[..n] == s[..n] && (s + [b])[n..] == s[n..] + [b];
      ComplementSnoc(s[n..], b);
      if |s| == n {
        assert s[..n] == s && s[n..] == [];
        assert Shown(Complement([])) == [];
      }
    }
  }

  predicate LegalRegion(x: nat, y: nat, w: nat, h: nat) {
    w > 0 && h > 0 && x % 8 == 0 && w % 8 == 0 && x + w <= WIDTH && y + h <= HEIGHT
  }

  /** The bytes of one image plane of a region. */
  function PlaneSize(w: nat, h: nat): nat {
    w / 8 * h
  }

  /** Awake, disciplined so far, and not in the middle of the sleep command. */
  predicate Ready(bus: seq<Bus>) {
    Disciplined(bus) && !Asleep(bus) && (bus != [] ==> bus[|bus| - 1] != Command(0x07))
  }

  lemma {:induction false} ReadyExtends(bus: seq<Bus>, more: seq<Bus>)
    requires Ready(bus) && Command(0x07) !in more
    ensures Ready(bus + more)
  {
    hide Asleep, Disciplined;
    if more == [] {
      assert bus + more == bus;
    } else {
      var n := |more| - 1;
      ReadyExtends(bus, more[..n]);
      DisciplineSnoc(bus + more[..n], more[n]);
      AsleepSnoc(bus + more[..n], more[n]);
      assert bus + more == bus + more[..n] + [more[n]];
    }
  }

  lemma DisciplineSnoc(bus: seq<Bus>, e: Bus)
    requires Disciplined(bus) && (e == ResetPulse || !Asleep(bus))
    ensures Disciplined(bus + [e])
  {
    hide Asleep;
    assert (bus + [e])[..|bus|] == bus;
    forall i | 0 <= i < |bus + [e]|
      ensures (bus + [e])[i] == ResetPulse || !Asleep((bus + [e])[..i])
    {
      assert i < |bus| ==> (bus + [e])[..i] == bus[..i];
    }
  }

  lemma AsleepSnoc(bus: seq<Bus>, e: Bus)
    ensures Asleep(bus + [e]) <==>
      e != ResetPulse && (Asleep(bus) || (e == Datum(0xa5) && bus != [] && bus[|bus| - 1] == Command(0x07)))
  {
    assert (bus + [e])[..|bus|] == bus;
  }

  lemma SleepDiscipline(bus: seq<Bus>)
    requires Ready(bus)
    ensures Disciplined(bus + [Command(0x07), Datum(0xa5)]) && Asleep(bus + [Command(0x07), Datum(0xa5)])
  {
    hide Asleep, Disciplined;
    DisciplineSnoc(bus, Command(0x07));
    AsleepSnoc(bus, Command(0x07));
    DisciplineSnoc(bus + [Command(0x07)], Datum(0xa5));
    AsleepSnoc(bus + [Command(0x07)], Datum(0xa5));
    assert bus + [Command(0x07), Datum(0xa5)] == bus + [Command(0x07)] + [Datum(0xa5)];
  }

  lemma ResetDiscipline(bus: seq<Bus>)
    requires Disciplined(bus)
    ensures Ready(bus + [ResetPulse])
  {
    DisciplineSnoc(bus, ResetPulse);
    AsleepSnoc(bus, ResetPulse);
  }

  function Register(b: byte, values: bytes): seq<Bus> {
    [Command(b)] + Shown(values)
  }

  const TRANSITIONS: bytes := [0x00, 0x00, 0x20, 0x10, 0x00]

  function Lut(k: nat, frames: byte): bytes
    requires k < 5
  {
    seq(if k == 0 then 44 else 42, i requires 0 <= i =>
      if i == 0 then TRANSITIONS[k] else if i == 2 then frames else if i == 1 || i == 5 then 1 else 0)
  }

  function WindowBytes(x: nat, y: nat, w: nat, h: nat): bytes
    requires LegalRegion(x, y, w, h)
  {
    var last := y + h - 1;
    [ToByte(x), ToByte(x + w - 1), ToByte(y / 256), ToByte(y % 256), ToByte(last / 256), ToByte(last % 256), 0x28]
  }

  /** What a full refresh sends as the old image: an all-white plane. */
  function White(): bytes {
    seq(FRAME_BYTES, _ => 0xff)
  }

  /** The command the image data follows: the old plane of a region, or the new plane of the whole
      panel behind an all-white old one. */
  function Opening(partial: bool): seq<Bus> {
    if partial then [Command(0x10)] else Register(0x10, White()) + [Command(0x13)]
  }

  /** The bus carries the image since position start: both planes of a region complemented, a full
      image as it is. */
  predicate Carries(bus: seq<Bus>, start: nat, partial: bool, plane: nat, image: bytes) {
    && |Opening(partial)| <= start <= |bus|
    && bus[start - |Opening(partial)|..start] == Opening(partial)
    && bus[start..] == if partial then Planes(plane, image) else Shown(image)
  }

  lemma CarriesNothing(bus: seq<Bus>, partial: bool, plane: nat)
    requires plane > 0
    ensures Carries(bus + Opening(partial), |bus| + |Opening(partial)|, partial, plane, [])
  {
    hide Opening;
    var all := bus + Opening(partial);
    assert all[|bus|..|all|] == Opening(partial);
    assert Complement([]) == [] && Shown([]) == [];
    assert all[|all|..] == [];
  }

  /** One more byte of the image, on a new plane if the old one is complete. */
  function OnBus(partial: bool, plane: nat, image: bytes, b: byte): seq<Bus> {
    (if partial && |image| == plane then [Command(0x13)] else []) + [Datum(if partial then !b else b)]
  }

  lemma CarriesOneMore(bus: seq<Bus>, start: nat, partial: bool, plane: nat, image: bytes, b: byte)
    requires Carries(bus, start, partial, plane, image)
    ensures Carries(bus + OnBus(partial, plane, image, b), start, partial, plane, image + [b])
  {
    hide Opening, Planes;
    var all := bus + OnBus(partial, plane, image, b);
    assert all[start..] == bus[start..] + OnBus(partial, plane, image, b);
    assert all[start - |Opening(partial)|..start] == Opening(partial);
    if partial {
      PlanesSnoc(plane, image, b);
      assert Planes(plane, image + [b]) == Planes(plane, image) + OnBus(partial, plane, image, b);
    } else {
      assert Shown(image + [b]) == Shown(image) + [Datum(b)];
      assert OnBus(partial, plane, image, b) == [Datum(b)];
    }
  }

  /** What epd_finish sends to refresh; a region in mode 0 first leaves the register LUTs. */
  function Refresh(partial: bool, mode: byte): seq<Bus> {
    (if partial && mode == 0 then Register(0x00, [0x1f, 0x0d]) + Register(0x50, [0x97]) else []) + [Command(0x12)]
  }

  /** A read of the BUSY line behind its status command. */
  function Look(busy: bool): seq<Bus> {
    [Command(0x71), BusyRead(busy)]
  }

  /** n looks at a busy panel. */
  function Waits(n: nat): seq<Bus> {
    if n == 0 then [] else Waits(n - 1) + Look(true)
  }

  /** A wait for the panel: n looks in vain, and a last one that sees it ready or gives up. */
  function Polls(n: nat, ready: bool): seq<Bus> {
    Waits(n) + Look(!ready)
  }

  function StartUp(region: bool): seq<Bus> {
    [ResetPulse] + (if region then Register(0x01, [0x03, 0x02, 0x21, 0x21]) else [])
    + Register(0x06, [0x17, 0x17, 0x17]) + [Command(0x04)]
  }

  function Settings(region: bool): seq<Bus> {
    Register(0x00, [if region then 0xbf else 0x1f, 0x0d]) + (if region then Register(0x30, [0x3c]) else [])
    + Register(0x61, [0x68, 0x00, 0xd4]) + if region then [] else Register(0x50, [0x97]) + Opening(false)
  }

  function Luts(frames: byte, count: nat): seq<Bus>
    requires count <= 5
  {
    if count == 0 then [] else Luts(frames, count - 1) + Register(ToByte(0x20 + count - 1), Lut(count - 1, frames))
  }

  /** From the settings of a region to its old plane: waveforms, then the window. */
  function Window(x: nat, y: nat, w: nat, h: nat, frames: byte): seq<Bus>
    requires LegalRegion(x, y, w, h)
  {
    Register(0x82, [0x08]) + Register(0x50, [0x47]) + Luts(frames, 5)
    + [Command(0x91)] + Register(0x90, WindowBytes(x, y, w, h)) + Opening(true)
  }

  /** The window the panel is told, as it reads it off the bus: columns x to x + w - 1 and rows y to
      y + h - 1 behind command 90, and the data for its old plane next. */
  predicate Addresses(bus: seq<Bus>, start: nat, x: nat, y: nat, w: nat, h: nat) {
    && 9 <= start <= |bus| && bus[start - 9] == Command(0x90) && bus[start - 1] == Command(0x10)
    && bus[start - 8].Datum? && bus[start - 7].Datum? && bus[start - 6].Datum? && bus[start - 5].Datum?
    && bus[start - 4].Datum? && bus[start - 3].Datum? && bus[start - 2] == Datum(0x28)
    && Val(bus[start - 8].b) == x && Val(bus[start - 7].b) + 1 == x + w
    && 256 * Val(bus[start - 6].b) + Val(bus[start - 5].b) == y
    && 256 * Val(bus[start - 4].b) + Val(bus[start - 3].b) + 1 == y + h
  }

  lemma WindowAddresses(bus: seq<Bus>, x: nat, y: nat, w: nat, h: nat)
    requires LegalRegion(x, y, w, h)
    ensures var all := bus + Register(0x90, WindowBytes(x, y, w, h)) + [Command(0x10)];
            Addresses(all, |all|, x, y, w, h)
  {
    hide ToByte, Val;
  }

  function PowerDown(): seq<Bus> {
    Register(0x50, [0xf7]) + [Command(0x02)]
  }

  const SLEEP: seq<Bus> := [Command(0x07), Datum(0xa5)]

  class Driver {
    /** CONFIG_LT213A_EPD_DEEP_SLEEP. */
    const deepSleep: bool
    var partial: bool
    var awake: bool
    var planeBytes: nat
    var planeWritten: nat
    /** Everything the panel has seen. */
    ghost var bus: seq<Bus>
    /** Where the image data of the current transfer starts on the bus, and its bytes so far. */
    ghost var start: nat
    ghost var image: bytes

    /** SPI and BUSY are used only while awake, and an awake panel is not asleep. */
    ghost predicate Valid()
      reads this
    {
      Disciplined(bus) && (awake ==> Ready(bus))
    }

    ghost predicate Showing()
      reads this
    {
      && (partial ==> planeWritten == |image| && planeBytes > 0)
      && Carries(bus, start, partial, planeBytes, image)
    }

    /** epd_init: the state of the panel is unknown before its first reset pulse. */
    constructor (deepSleep: bool)
      ensures Valid() && !partial && this.deepSleep == deepSleep
    {
      this.deepSleep := deepSleep;
      partial, awake, planeBytes, planeWritten := false, false, 0, 0;
      bus, start, image := [], 0, [];
      new;
      PanelReset();
      var ready;
      ghost var n;
      ready, n := Off();
    }

    method Emit(e: Bus)
      requires Valid() && awake && e != Command(0x07)
      modifies this`bus
      ensures Valid() && bus == old(bus) + [e] && old(bus) <= bus
    {
      hide Asleep, Disciplined;
      ReadyExtends(bus, [e]);
      bus := bus + [e];
    }

    /** A command and its data bytes. */
    method Set(b: byte, values: bytes)
      requires Valid() && awake && b != 0x07
      modifies this`bus
      ensures Valid() && bus == old(bus) + Register(b, values) && old(bus) <= bus
    {
      hide Asleep, Disciplined;
      ReadyExtends(bus, Register(b, values));
      bus := bus + Register(b, values);
    }

    method PanelReset()
      requires Valid()
      modifies this`bus, this`awake
      ensures Valid() && awake && bus == old(bus) + [ResetPulse] && old(bus) <= bus
    {
      hide Asleep, Disciplined;
      ResetDiscipline(bus);
      awake, bus := true, bus + [ResetPulse];
    }

    /** wait_ready: poll BUSY every 10 ms until the panel is ready, or for 30 s. */
    method WaitReady() returns (ready: bool, ghost n: nat, ghost waited: nat)
      requires Valid() && awake
      modifies this`bus
      ensures Valid() && bus == old(bus) + Polls(n, ready) && old(bus) <= bus
      ensures 10 * n <= waited && n <= 3000 && (!ready ==> waited >= 30000)
    {
      hide Asleep, Disciplined, Ready;
      var elapsed: nat := 0;
      n := 0;
      while true
        invariant Valid() && bus == old(bus) + Waits(n) && 10 * n <= elapsed && n <= 3000
        decreases 30000 - elapsed
      {
        var busy: bool := *;
        Emit(Command(0x71));
        Emit(BusyRead(busy));
        assert bus == old(bus) + Polls(n, !busy);
        if !busy {
          return true, n, elapsed;
        }
        if elapsed >= 30000 {
          return false, n, elapsed;
        }
        var slept: nat :| slept >= 10;
        elapsed, n := elapsed + slept, n + 1;
      }
    }

    method Sleep()
      requires Valid() && awake
      modifies this`awake, this`bus
      ensures Valid() && !awake && old(bus) <= bus
      ensures bus == old(bus) + (if deepSleep then SLEEP else []) && (deepSleep ==> Asleep(bus))
    {
      hide Asleep, Disciplined;
      if deepSleep {
        SleepDiscipline(bus);
        bus := bus + SLEEP;
      }
      awake := false;
    }

    /** epd_off: power the panel down; it counts as asleep only when it reported ready. */
    method Off() returns (ok: bool, ghost n: nat)
      requires Valid()
      modifies this`partial, this`awake, this`bus
      ensures Valid() && !partial && awake == !ok && old(bus) <= bus
      ensures bus == old(bus) +
        if old(awake) then PowerDown() + Polls(n, ok) + (if ok && deepSleep then SLEEP else []) else []
      ensures ok && deepSleep && old(awake) ==> Asleep(bus)
      ensures !old(awake) ==> ok
    {
      hide Asleep, Disciplined, Ready, Register, Polls;
      partial, n := false, 0;
      if !awake {
        return true, 0;
      }
      Set(0x50, [0xf7]);
      Emit(Command(0x02));
      ghost var waited;
      ok, n, waited := WaitReady();
      if ok {
        Sleep();
      }
    }

    /** panel_begin as far as the wait for power: an unready panel is switched off again. */
    method PowerOn(region: bool) returns (ok: bool, ghost n: nat)
      requires Valid()
      modifies this`partial, this`awake, this`bus
      ensures Valid() && old(bus) + StartUp(region) + Polls(n, ok) <= bus && old(bus) <= bus
      ensures ok ==> awake && partial == region && bus == old(bus) + StartUp(region) + Polls(n, true)
      ensures !ok ==> !partial && old(bus) + StartUp(region) + Polls(n, false) + PowerDown() <= bus
    {
      hide Asleep, Disciplined, Ready, Register, Polls;
      ghost var was := bus;
      partial := region;
      PanelReset();
      if region {
        Set(0x01, [0x03, 0x02, 0x21, 0x21]);
      }
      Set(0x06, [0x17, 0x17, 0x17]);
      Emit(Command(0x04));
      assert bus == was + StartUp(region);
      ghost var waited;
      ok, n, waited := WaitReady();
      if !ok {
        ghost var more;
        var off;
        off, more := Off();
      }
    }

    /** panel_begin: the panel's settings; a full transfer also whitens the old plane. */
    method PanelBegin(region: bool) returns (ok: bool, ghost n: nat)
      requires Valid()
      modifies this`partial, this`awake, this`bus
      ensures Valid() && old(bus) <= bus && (ok ==> awake && partial == region) && (!ok ==> !partial)
      ensures ok ==> bus == old(bus) + StartUp(region) + Polls(n, true) + Settings(region)
      ensures !ok ==> old(bus) + StartUp(region) + Polls(n, false) + PowerDown() <= bus
    {
      hide Asleep, Disciplined, Ready, Register, White, StartUp, Polls, PowerDown;
      ok, n := PowerOn(region);
      if ok {
        Configure(region);
      }
    }

    method Configure(region: bool)
      requires Valid() && awake
      modifies this`bus
      ensures Valid() && bus == old(bus) + Settings(region) && old(bus) <= bus
    {
      hide Asleep, Disciplined, Ready, Register, White;
      Set(0x00, [if region then 0xbf else 0x1f, 0x0d]);
      if region {
        Set(0x30, [0x3c]);
      }
      Set(0x61, [0x68, 0x00, 0xd4]);
      if !region {
        Set(0x50, [0x97]);
        Set(0x10, White());
        Emit(Command(0x13));
      }
    }

    method Begin() returns (ok: bool)
      requires Valid()
      modifies this
      ensures Valid() && old(bus) <= bus
      ensures ok ==> awake && !partial && Showing() && image == []
      ensures ok ==> exists n :: bus == old(bus) + StartUp(false) + Polls(n, true) + Settings(false)
      ensures !ok ==> !partial && exists n :: old(bus) + StartUp(false) + Polls(n, false) + PowerDown() <= bus
    {
      hide Asleep, Disciplined, Ready, Opening, Carries, StartUp, Polls, PowerDown, Register;
      ghost var n;
      ok, n := PanelBegin(false);
      start, image := |bus|, [];
      if ok {
        ghost var before := bus[..|bus| - |Opening(false)|];
        assert bus == before + Opening(false);
        CarriesNothing(before, false, 1);
        CarriesAnyPlane(bus, start, 1, planeBytes, []);
      }
    }

    /** The five register LUTs, each with the same number of frames. */
    method LoadLuts(frames: byte)
      requires Valid() && awake
      modifies this`bus
      ensures Valid() && bus == old(bus) + Luts(frames, 5) && old(bus) <= bus
    {
      hide Asleep, Disciplined, Ready, Register, Lut;
      assert bus == bus + Luts(frames, 0);
      for k := 0 to 5
        invariant Valid() && awake && bus == old(bus) + Luts(frames, k)
      {
        LutCommand(k);
        Set(ToByte(0x20 + k), Lut(k, frames));
        assert bus == old(bus) + Luts(frames, k + 1);
      }
    }

    method OpenWindow(x: nat, y: nat, w: nat, h: nat, frames: byte)
      requires Valid() && awake && partial && LegalRegion(x, y, w, h)
      modifies this`bus, this`start, this`image
      ensures Valid() && bus == old(bus) + Window(x, y, w, h, frames) && old(bus) <= bus
      ensures image == [] && Carries(bus, start, true, PlaneSize(w, h), []) && Addresses(bus, start, x, y, w, h)
    {
      hide Addresses, Asleep, Disciplined, Ready, Register, Carries, WindowBytes, Luts, PlaneSize;
      Set(0x82, [0x08]);
      Set(0x50, [0x47]);
      LoadLuts(frames);
      Emit(Command(0x91));
      ghost var told := bus;
      Set(0x90, WindowBytes(x, y, w, h));
      ghost var before := bus;
      Emit(Command(0x10));
      start, image := |bus|, [];
      AreaPositive(w, h);
      WindowAddresses(told, x, y, w, h);
      CarriesNothing(before, true, PlaneSize(w, h));
    }

    /** epd_region: refuse an illegal window, otherwise load the LUTs and open the old plane. */
    method Region(x: nat, y: nat, w: nat, h: nat, frames: byte) returns (ok: bool)
      requires Valid()
      modifies this
      ensures Valid() && old(bus) <= bus
      ensures !LegalRegion(x, y, w, h) ==>
        !ok && bus == old(bus) && awake == old(awake) && partial == old(partial)
      ensures ok ==> awake && partial && Showing() && image == [] && planeBytes == w / 8 * h
      ensures ok ==> Addresses(bus, start, x, y, w, h)
      ensures ok ==> exists n ::
        bus == old(bus) + StartUp(true) + Polls(n, true) + Settings(true) + Window(x, y, w, h, frames)
      ensures !ok && LegalRegion(x, y, w, h) ==>
        !partial && exists n :: old(bus) + StartUp(true) + Polls(n, false) + PowerDown() <= bus
    {
      hide Asleep, Disciplined, Ready, Carries, StartUp, Polls, PowerDown, Settings, Window, Addresses;
      if w == 0 || h == 0 || x % 8 != 0 || w % 8 != 0 || x + w > WIDTH || y + h > HEIGHT {
        return false;
      }
      ghost var n;
      ok, n := PanelBegin(true);
      if ok {
        OpenWindow(x, y, w, h, frames);
        AreaPositive(w, h);
        planeBytes, planeWritten, partial := PlaneSize(w, h), 0, true;
      }
    }

    method WriteByte(b: byte)
      requires Valid() && awake && Showing()
      modifies this`planeWritten, this`bus, this`image
      ensures Valid() && Showing() && image == old(image) + [b] && old(bus) <= bus
    {
      hide Asleep, Disciplined, Ready, Carries;
      CarriesOneMore(bus, start, partial, planeBytes, image, b);
      if partial && planeWritten == planeBytes {
        Emit(Command(0x13));
      }
      Emit(Datum(if partial then !b else b));
      if partial {
        planeWritten := planeWritten + 1;
      }
      assert bus == old(bus) + OnBus(partial, planeBytes, image, b);
      image := image + [b];
    }

    /** epd_write: shift the bytes out, complemented for a partial transfer, and open the new
        plane when the old one is full. */
    method Write(data: bytes)
      requires Valid() && awake && Showing()
      modifies this`planeWritten, this`bus, this`image
      ensures Valid() && Showing() && image == old(image) + data && old(bus) <= bus
    {
      hide Asleep, Disciplined, Ready, Carries;
      for i := 0 to |data|
        invariant Valid() && Showing() && image == old(image) + data[..i] && old(bus) <= bus
      {
        WriteByte(data[i]);
        assert data[..i + 1] == data[..i] + [data[i]];
      }
      assert data[..|data|] == data;
    }

    method StartRefresh(mode: byte)
      requires Valid() && awake
      modifies this`bus
      ensures Valid() && bus == old(bus) + Refresh(partial, mode) && old(bus) <= bus
    {
      hide Asleep, Disciplined, Ready, Register;
      if partial && mode == 0 {
        Set(0x00, [0x1f, 0x0d]);
        Set(0x50, [0x97]);
      }
      Emit(Command(0x12));
    }

    /** epd_finish: refresh right behind the image, then power off whether or not the refresh
        was seen to end; it succeeds when both were. */
    method Finish(mode: byte) returns (ok: bool, ghost n: nat, ghost ready: bool)
      requires Valid() && awake
      modifies this`partial, this`awake, this`bus
      ensures Valid() && !partial && (ok <==> ready && !awake) && old(bus) + Refresh(old(partial), mode) <= bus
      ensures old(bus) + Refresh(old(partial), mode) + Polls(n, ready)
        + (if old(partial) then [Command(0x92)] else []) + PowerDown() <= bus
    {
      hide Asleep, Disciplined, Ready, Refresh, Polls, PowerDown;
      StartRefresh(mode);
      var settled;
      ghost var waited, more;
      settled, n, waited := WaitReady();
      ready := settled;
      if partial {
        Emit(Command(0x92));
      }
      var off;
      off, more := Off();
      ok := settled && off;
    }
  }

  lemma CarriesAnyPlane(bus: seq<Bus>, start: nat, plane: nat, other: nat, image: bytes)
    requires Carries(bus, start, false, plane, image)
    ensures Carries(bus, start, false, other, image)
  {
    hide Opening, Planes, Shown;
  }

  lemma LutCommand(k: nat)
    requires k < 5
    ensures ToByte(0x20 + k) != 0x07
  {
    assert Val(0x07) == 7;
  }

  lemma PlaneFits(x: nat, y: nat, w: nat, h: nat)
    requires LegalRegion(x, y, w, h)
    ensures PlaneSize(w, h) <= FRAME_BYTES
  {
    assert w / 8 <= 13 && h <= 212;
    assert (13 - w / 8) * h >= 0;
  }

  lemma AreaPositive(w: nat, h: nat)
    requires w > 0 && w % 8 == 0 && h > 0
    ensures PlaneSize(w, h) > 0
  {
  }

  // ----- the register sequence, byte by byte

  /** Pixels go to a region inverted. */
  lemma ComplementInverts(s: bytes, i: nat)
    requires i < |s|
    ensures Val(Complement(s)[i]) == 255 - Val(s[i])
    ensures Shown(s)[i] == Datum(s[i])
  {
    InvertedByte(s[i]);
  }

  lemma InvertedByte(b: byte)
    ensures Val(!b) == 255 - Val(b)
  {
  }

  /** A full plane is a bit for each of the 104 x 212 pixels, and white is ones. */
  lemma FullPlane()
    ensures 104 % 8 == 0 && |White()| == FRAME_BYTES == 104 / 8 * 212
    ensures WIDTH == 104 && HEIGHT == 212
    ensures forall i :: 0 <= i < |White()| ==> White()[i] == 0xff
  {
  }

  /** What starts the panel. */
  lemma StartBytes()
    ensures StartUp(false) == [ResetPulse, Command(0x06), Datum(0x17), Datum(0x17), Datum(0x17), Command(0x04)]
    ensures StartUp(true) == [ResetPulse, Command(0x01), Datum(0x03), Datum(0x02), Datum(0x21), Datum(0x21),
                              Command(0x06), Datum(0x17), Datum(0x17), Datum(0x17), Command(0x04)]
  {
  }

  /** What sets it up: its size, and for a whole image a white old plane. */
  lemma SettingBytes()
    ensures Settings(true) == [Command(0x00), Datum(0xbf), Datum(0x0d), Command(0x30), Datum(0x3c),
                               Command(0x61), Datum(0x68), Datum(0x00), Datum(0xd4)]
    ensures Settings(false) == [Command(0x00), Datum(0x1f), Datum(0x0d), Command(0x61), Datum(0x68), Datum(0x00),
                                Datum(0xd4), Command(0x50), Datum(0x97), Command(0x10)]
      + Shown(White()) + [Command(0x13)]
    ensures Be([0x68]) == WIDTH && Be([0x00, 0xd4]) == HEIGHT
  {
    Digits(0x00, 0xd4, 0, 0);
    assert Be([0x68]) == TWO_8 * Be([]) + Val(0x68);
    assert Val(0x68) == 104 && Val(0xd4) == 212 && Val(0) == 0;
  }

  /** A refresh, and the way to sleep. */
  lemma RefreshBytes(mode: byte)
    ensures Refresh(false, mode) == [Command(0x12)]
    ensures Refresh(true, mode) ==
      (if mode == 0 then [Command(0x00), Datum(0x1f), Datum(0x0d), Command(0x50), Datum(0x97)] else [])
      + [Command(0x12)]
    ensures PowerDown() == [Command(0x50), Datum(0xf7), Command(0x02)]
    ensures SLEEP == [Command(0x07), Datum(0xa5)]
  {
    assert Refresh(true, 0) == [Command(0x00), Datum(0x1f), Datum(0x0d), Command(0x50), Datum(0x97)] + [Command(0x12)];
  }

  /** The five waveforms, VCOM, white to white, black to white, white to black and black to black: one
      phase of the configured length, in which only the changing pixels are driven, and zeros. */
  lemma LutOctets(k: nat, frames: byte)
    requires k < 5
    ensures |Lut(k, frames)| == if k == 0 then 44 else 42
    ensures Lut(k, frames)[..6] ==
      [if k == 2 then 0x20 else if k == 3 then 0x10 else 0x00, 0x01, frames, 0x00, 0x00, 0x01]
    ensures forall i :: 6 <= i < |Lut(k, frames)| ==> Lut(k, frames)[i] == 0
  {
  }

  /** Registers 20 to 24 take them in order. */
  lemma LutsInOrder(frames: byte)
    ensures Luts(frames, 5) ==
      Register(0x20, Lut(0, frames)) + Register(0x21, Lut(1, frames)) + Register(0x22, Lut(2, frames))
      + Register(0x23, Lut(3, frames)) + Register(0x24, Lut(4, frames))
  {
    hide Register, Lut, ToByte, Val;
    RegisterNumbers();
    assert Luts(frames, 2) == Luts(frames, 1) + Register(0x21, Lut(1, frames));
    assert Luts(frames, 4) == Luts(frames, 3) + Register(0x23, Lut(3, frames));
    assert Luts(frames, 0) == [];
  }

  lemma RegisterNumbers()
    ensures ToByte(0x20) == 0x20 && ToByte(0x21) == 0x21 && ToByte(0x22) == 0x22 && ToByte(0x23) == 0x23
    ensures ToByte(0x24) == 0x24
  {
    hide ToByte;
    assert Val(0x20) == 0x20 && Val(0x21) == 0x21 && Val(0x22) == 0x22 && Val(0x23) == 0x23 && Val(0x24) == 0x24;
    ValInjective(ToByte(0x20), 0x20);
    ValInjective(ToByte(0x21), 0x21);
    ValInjective(ToByte(0x22), 0x22);
    ValInjective(ToByte(0x23), 0x23);
    ValInjective(ToByte(0x24), 0x24);
  }

  /** A wait looks at BUSY behind its status command each time, and is busy every time but the last. */
  lemma {:induction false} PollBytes(n: nat, ready: bool)
    ensures |Polls(n, ready)| == 2 * n + 2
    ensures forall i :: 0 <= i <= n ==>
      Polls(n, ready)[2 * i] == Command(0x71) && Polls(n, ready)[2 * i + 1] == BusyRead(i < n || !ready)
  {
    if n == 0 {
      assert Waits(0) == [];
    } else {
      PollBytes(n - 1, false);
      assert Waits(n) == Polls(n - 1, false);
    }
  }
}
