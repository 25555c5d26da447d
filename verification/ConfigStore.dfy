/** The configuration transaction store of src/config_store.c: its RAM state over the two flash
    slots, and what a power cut at any word can leave behind. */
module ConfigStore {
  import opened Bytes
  import opened Checksum
  import opened Container
  import opened Flash
  import opened Slots

  /** What an operation promises about every flash content it passes through: a power cut there
      boots into one of these configurations, and this slot still holds this page. */
  datatype Promise = Promise(configs: set<bytes>, slot: nat, page: bytes)

  ghost predicate Kept(log: seq<Image>, n: nat, p: Promise)
    requires p.slot < 2
  {
    n <= |log| && forall k :: n <= k < |log| ==> BootConfig(log[k]) in p.configs && Page(log[k], p.slot) == p.page
  }

  class Store {
    const flash: Device
    var active: Option<nat>
    var staging: Option<nat>
    var expected: nat
    var received: nat
    var generation: nat
    /** The bytes received in the open transaction. */
    ghost var open: bytes

    ghost function Chosen(): Choice
      reads this
    {
      Choice(active, generation)
    }

    ghost function Content(): Image
      requires flash.mem.Length == 2048
      reads this, flash, flash.mem
    {
      flash.Content()
    }

    /** RAM and flash agree. While nothing is staged a boot would make the same choice, or the
        next one when a commit word landed although its write was reported as failed. */
    ghost predicate Valid()
      reads this, flash, flash.mem
    {
      && flash.Valid()
      && Backed(Content(), Chosen())
      && received == |open| <= expected <= CONFIG_MAX
      && if staging.None? then open == [] && expected == 0
          && (Boot(Content()) == Chosen() || Boot(Content()) == Next(Chosen()))
         else staging == Some(Target(Chosen())) && Page(Content(), Target(Chosen())) == Staged(open)
    }

    /** The configuration od_config_get returns. */
    ghost function Effective(): bytes
      requires Valid()
      reads this, flash, flash.mem
    {
      ConfigOf(Content(), Chosen())
    }

    /** The promise an operation starting here makes: only these configurations, and the slot in
        use (slot 1 when there is none) untouched. */
    ghost function Promises(configs: set<bytes>): (p: Promise)
      requires Valid()
      reads this, flash, flash.mem
      ensures p.slot < 2
    {
      Promise(configs, 1 - Target(Chosen()), Page(Content(), 1 - Target(Chosen())))
    }

    constructor (flash: Device)
      requires flash.Valid()
      ensures this.flash == flash && Valid() && staging.None?
      ensures Chosen() == Boot(flash.Content()) && Effective() == BootConfig(flash.Content())
    {
      this.flash := flash;
      active, staging, expected, received, generation, open := None, None, 0, 0, 0, [];
      new;
      Init();
    }

    /** od_config_init: select a slot from whatever the flash holds. */
    method Init()
      requires flash.Valid()
      modifies this
      ensures Valid() && staging.None?
      ensures Chosen() == Boot(Content()) && Effective() == BootConfig(Content())
    {
      hide SlotOk, Newer, Generation, Page;
      active, staging, generation := None, None, 0;
      expected, received, open := 0, 0, [];
      for i := 0 to 2
        invariant staging.None? && expected == received == 0 && open == []
        invariant i == 0 ==> Chosen() == NOTHING
        invariant i == 1 ==> Chosen() == Consider(Content(), NOTHING, 0)
        invariant i == 2 ==> Chosen() == Boot(Content())
      {
        var page := flash.mem[PAGE * i..PAGE * i + PAGE];
        assert page == Page(Content(), i) by { PageIs(Content(), i); }
        var ok := CheckSlot(page);
        if ok {
          var g := ReadLe(page[0..4]);
          GenerationIs(page);
          if active.None? || Newer(g, generation) {
            active, generation := Some(i), g;
          }
        }
      }
      BootIsOk(Content());
      BootIsBacked(Content());
    }

    /** With a transaction open or flash settled, a power cut changes nothing. */
    lemma BootAgrees()
      requires Valid() && (Writing() || Boot(Content()) == Chosen())
      ensures BootConfig(Content()) == Effective()
    {
      hide Boot, Backed, ConfigOf, PageWith, Page, Target;
      if Writing() {
        StagedKeepsChoice(Content(), Chosen(), Ones(HEADER), 0, open);
      }
    }

    /** od_config_get. */
    method Get() returns (config: bytes)
      requires Valid()
      ensures config == Effective() && Validate(config) == Verdict.Valid
    {
      hide Validate, Crc;
      DefaultIsValid();
      if active.Some? {
        var page := flash.mem[PAGE * active.value..PAGE * active.value + PAGE];
        assert page == Page(Content(), active.value);
        var n := ReadLe(page[4..8]);
        if n != 0 {
          return page[HEADER..HEADER + n];
        }
      }
      return DEFAULT;
    }

    /** A transaction just started holds nothing. */
    lemma StartsEmpty()
      requires Valid() && open == []
      ensures received == 0
    {
      hide Boot, Backed, ConfigOf;
    }

    lemma OpenLength()
      requires Valid()
      ensures received == |open| <= expected <= CONFIG_MAX
    {
      hide Boot, Backed, ConfigOf;
    }

    predicate Writing()
      reads this
    {
      staging.Some?
    }

    /** od_config_cancel: forget the open transaction; flash is not touched. */
    method Cancel()
      requires Valid()
      modifies this
      ensures Valid() && !Writing()
      ensures Chosen() == old(Chosen()) && Effective() == old(Effective())
    {
      hide Boot, Backed, ConfigOf;
      if staging.Some? {
        StagedKeepsChoice(Content(), Chosen(), Ones(HEADER), 0, open);
      }
      staging, expected, received, open := None, 0, 0, [];
    }

    /** od_config_start: erase the unused slot and open a transaction of the given size. */
    method Start(total: nat) returns (ok: bool)
      requires Valid()
      modifies this, flash, flash.mem
      ensures Valid() && Chosen() == old(Chosen()) && Effective() == old(Effective())
      ensures Writing() <==> ok
      ensures ok <==> total <= CONFIG_MAX && flash.faults == old(flash.faults)
      ensures old(flash.faults) <= flash.faults
      ensures ok ==> total <= CONFIG_MAX && expected == total && open == []
      ensures total > CONFIG_MAX ==> flash.log == old(flash.log)
      ensures old(flash.log) <= flash.log && Kept(flash.log, |old(flash.log)|, old(Promises({Effective()})))
    {
      hide Boot, Backed, ConfigOf, Erased, Page, BootConfig;
      Cancel();
      if total > CONFIG_MAX {
        return false;
      }
      ghost var m, c := Content(), Chosen();
      var target := if active == Some(0) then 1 else 0;
      ok := flash.Erase(target);
      if !ok {
        return;
      }
      ErasePages(m, target);
      BackedElsewhere(m, Content(), c);
      StagedKeepsChoice(Content(), c, Ones(HEADER), 0, []);
      staging, expected := Some(target), total;
    }

    /** od_config_append. A chunk that does not fit, or that completes an invalid container, ends
        the transaction; the chunk that completes a valid one commits it. Every content a power
        cut can leave boots into the old configuration or into the complete new one. */
    method Append(data: bytes) returns (ok: bool)
      requires Valid()
      modifies this, flash, flash.mem
      ensures Valid() && old(flash.faults) <= flash.faults
      ensures var fits := old(Writing()) && |data| <= old(expected - received) && (data != [] || old(expected) == 0);
              var full := old(open) + data;
              var last := fits && |full| == old(expected);
              && (ok <==> fits && (last ==> Acceptable(full)) && flash.faults == old(flash.faults))
              && (!fits ==> flash.log == old(flash.log) && flash.faults == old(flash.faults))
              && (!ok ==> !Writing() && Chosen() == old(Chosen()) && Effective() == old(Effective()))
              && (ok && !last ==> Writing() && Chosen() == old(Chosen()) && Effective() == old(Effective())
                                  && open == full && expected == old(expected))
              && (ok && last ==> !Writing() && Acceptable(full) && CommittedOver(old(Chosen()), full))
              && old(flash.log) <= flash.log
              && Kept(flash.log, |old(flash.log)|,
                      old(Promises(if last && Acceptable(full) then {Effective(), Installed(full)} else {Effective()})))
    {
      hide Boot, Backed, ConfigOf, Page, BootConfig, Staged, Committed, Acceptable, Target;
      if staging.None? || |data| > expected - received || (data == [] && expected != 0) {
        Cancel();
        return false;
      }
      ok := Receive(data);
      if !ok {
        Cancel();
        return;
      }
      if received != expected {
        return;
      }
      ghost var full, log := open, flash.log;
      ghost var promise := Promises(if Acceptable(full) then {Effective(), Installed(full)} else {Effective()});
      ok := Complete(promise);
      KeptWiden(old(flash.log), log, old(Promises({Effective()})), promise);
      KeptJoin(old(flash.log), log, flash.log, promise);
    }

    /** od_config_clear: commit a zero-length transaction, which makes the built-in effective. */
    method Clear() returns (ok: bool)
      requires Valid()
      modifies this, flash, flash.mem
      ensures Valid() && !Writing() && old(flash.faults) <= flash.faults && (ok <==> flash.faults == old(flash.faults))
      ensures ok ==> Effective() == Installed([]) && Chosen() == old(Next(Chosen())) == Boot(Content())
      ensures !ok ==> Chosen() == old(Chosen()) && Effective() == old(Effective())
      ensures old(flash.log) <= flash.log
          && Kept(flash.log, |old(flash.log)|, old(Promises({Effective(), Installed([])})))
    {
      hide Boot, Backed, ConfigOf, Page, BootConfig, Staged, Target, Committed, Validate;
      ghost var wide := Promises({Effective(), Installed([])});
      ghost var narrow := Promises({Effective()});
      ok := Start(0);
      KeptWiden(old(flash.log), flash.log, narrow, wide);
      if ok {
        ghost var log := flash.log;
        ok := Append([]);
        KeptJoin(old(flash.log), log, flash.log, wide);
      }
    }

    /** The flash loop of od_config_append: merge the chunk in, one flash word at a time. A failed
        word ends the transaction at once. */
    method Receive(data: bytes) returns (ok: bool)
      requires Valid() && Writing() && |data| <= expected - received
      modifies this, flash, flash.mem
      ensures Valid() && Chosen() == old(Chosen()) && Effective() == old(Effective())
      ensures old(flash.faults) <= flash.faults && (ok <==> flash.faults == old(flash.faults))
      ensures ok ==> Writing() && expected == old(expected) && open == old(open) + data
      ensures Page(Content(), 1 - Target(Chosen())) == old(Page(Content(), 1 - Target(Chosen())))
      ensures old(flash.log) <= flash.log && Kept(flash.log, |old(flash.log)|, old(Promises({Effective()})))
    {
      hide Boot, Backed, ConfigOf, Page, BootConfig, Staged, Target, Program, OnlyClears, Kept;
      ghost var before := flash.log;
      var i := 0;
      ok := true;
      assert data[..0] == [];
      ghost var promise := Promises({Effective()});
      NothingLogged(before, promise);
      while i < |data| && ok
        invariant i <= |data|
        invariant Valid() && Chosen() == old(Chosen()) && Effective() == old(Effective())
        invariant old(flash.faults) <= flash.faults && (ok <==> flash.faults == old(flash.faults))
        invariant ok ==> Writing() && expected == old(expected) && open == old(open) + data[..i]
        invariant before <= flash.log && Kept(flash.log, |before|, promise) && promise == Promises({Effective()})
      {
        var offset := HEADER + received;
        var base, start := offset - offset % 4, offset % 4;
        var count := if |data| - i < 4 - start then |data| - i else 4 - start;
        ghost var log := flash.log;
        ok := ReceiveWord(data[i..i + count], base, start);
        KeptJoin(before, log, flash.log, promise);
        assert data[..i + count] == data[..i] + data[i..i + count];
        i := i + count;
      }
    }

    /** One read-modify-write of a flash word. */
    method ReceiveWord(chunk: bytes, base: nat, start: nat) returns (ok: bool)
      requires Valid() && Writing() && |chunk| <= expected - received
      requires base + start == HEADER + received && base % 4 == 0 && start + |chunk| <= 4
      modifies this, flash, flash.mem
      ensures Valid() && Chosen() == old(Chosen()) && Effective() == old(Effective())
      ensures flash.faults == old(flash.faults) + if ok then 0 else 1
      ensures ok ==> Writing() && expected == old(expected) && open == old(open) + chunk
      ensures Page(Content(), 1 - Target(Chosen())) == old(Page(Content(), 1 - Target(Chosen())))
      ensures !ok ==> !Writing()
      ensures old(flash.log) <= flash.log && Kept(flash.log, |old(flash.log)|, old(Promises({Effective()})))
    {
      hide Boot, Backed, ConfigOf, Page, BootConfig, PageWith, Target, Program, OnlyClears, MergedWord;
      ghost var m, c, t := Content(), Chosen(), staging.value;
      PageIs(m, t);
      var page := flash.mem[PAGE * staging.value..PAGE * staging.value + PAGE];
      var word := MergedWord(page[base..base + 4], start, chunk);
      ProgramChunk(m, t, open, chunk, base, start);
      ghost var n;
      ok, n := flash.Write(staging.value, base, word);
      ghost var data := if n == 1 then open + chunk else open;
      NothingProgrammed(m, PAGE * t + base);
      assert word[..0] == [] && word[..4] == word;
      BackedElsewhere(m, Content(), c);
      StagedKeepsChoice(Content(), c, Ones(HEADER), 0, data);
      if ok {
        received, open := received + |chunk|, open + chunk;
      } else {
        staging, expected, received, open := None, 0, 0, [];
      }
    }

    /** The end of od_config_append: validate what flash now holds, write the header without its
        commit word, then the commit word. */
    method Complete(ghost promise: Promise) returns (ok: bool)
      requires Valid() && Writing() && received == expected
      requires promise == Promises(if Acceptable(open) then {Effective(), Installed(open)} else {Effective()})
      modifies this, flash, flash.mem
      ensures Valid() && !Writing()
      ensures old(flash.faults) <= flash.faults && (ok <==> Acceptable(old(open)) && flash.faults == old(flash.faults))
      ensures ok ==> Acceptable(old(open)) && CommittedOver(old(Chosen()), old(open))
      ensures !ok ==> Chosen() == old(Chosen()) && Effective() == old(Effective())
      ensures old(flash.log) <= flash.log && Kept(flash.log, |old(flash.log)|, promise)
    {
      hide Boot, Backed, ConfigOf, Page, BootConfig, Acceptable, Target, PageWith, CommittedOver;
      ok := ReceivedIsAcceptable();
      if !ok {
        Cancel();
      } else {
        ok := Commit(promise);
      }
    }

    /** The store after the choice c has been replaced by a commit of data. */
    ghost predicate CommittedOver(c: Choice, data: bytes)
      requires Valid() && |data| <= CONFIG_MAX
      reads this, flash, flash.mem
    {
      Chosen() == Next(c) == Boot(Content()) && Effective() == Installed(data)
      && Page(Content(), Target(c)) == Committed(generation, data)
    }

    method Commit(ghost promise: Promise) returns (ok: bool)
      requires Valid() && Writing() && received == expected && Acceptable(open)
      requires promise == Promises({Effective(), Installed(open)})
      modifies this, flash, flash.mem
      ensures Valid() && !Writing()
      ensures old(flash.faults) <= flash.faults && (ok <==> flash.faults == old(flash.faults))
      ensures ok ==> CommittedOver(old(Chosen()), old(open))
      ensures !ok ==> Chosen() == old(Chosen()) && Effective() == old(Effective())
      ensures old(flash.log) <= flash.log && Kept(flash.log, |old(flash.log)|, promise)
    {
      hide Boot, Backed, ConfigOf, Page, BootConfig, Committed, Acceptable, Target, PageWith, HeaderBytes;
      ghost var before, c, data := flash.log, Chosen(), open;
      var h := BuildHeader();
      StagedHeader(h, data);
      ok := WriteHeader(h, c, data, promise);
      if ok {
        ghost var log := flash.log;
        ghost var landed;
        ok, landed := WriteCommit(h, c, data, promise);
        KeptJoin(before, log, flash.log, promise);
        if ok {
          active, generation := staging, (generation + 1) % TWO_32;
        }
      }
      staging, expected, received, open := None, 0, 0, [];
    }

    method BuildHeader() returns (h: bytes)
      requires Valid() && Writing() && received == expected
      ensures h == HeaderBytes(Next(Chosen()).generation, open)
    {
      hide Boot, Backed, ConfigOf, Page, Target, PageWith;
      var blob := ReadBlob();
      var sum := ComputeCrc(blob, false);
      h := LeBytes((generation + 1) % TWO_32, 4) + LeBytes(expected, 4)
          + LeBytes(CrcValue(sum), 4) + LeBytes(COMMIT, 4);
    }

    /** The first three header words. */
    method WriteHeader(h: bytes, ghost c: Choice, ghost data: bytes, ghost promise: Promise) returns (ok: bool)
      requires flash.Valid() && Backed(Content(), c) && staging == Some(Target(c))
      requires |h| == HEADER && |data| <= CONFIG_MAX && Page(Content(), Target(c)) == PageWith(h, 0, data)
      requires ConfigOf(Content(), c) in promise.configs && promise.slot == 1 - Target(c)
          && Page(Content(), promise.slot) == promise.page
      modifies flash, flash.mem
      ensures flash.Valid() && Backed(Content(), c) && Boot(Content()) == c
      ensures ConfigOf(Content(), c) == old(ConfigOf(Content(), c))
      ensures flash.faults == old(flash.faults) + if ok then 0 else 1
      ensures ok ==> Page(Content(), Target(c)) == PageWith(h, 3, data)
      ensures old(flash.log) <= flash.log && Kept(flash.log, |old(flash.log)|, promise)
      ensures Page(Content(), promise.slot) == promise.page
    {
      hide Boot, Backed, ConfigOf, Page, BootConfig, Target, Program, OnlyClears, PageWith;
      ghost var m, t, n := Content(), Target(c), 0;
      ProgramHeader(m, t, h, data, 0, 3);
      assert h[0..12] == h[..12];
      ok, n := flash.Write(staging.value, 0, h[..12]);
      forall k | 0 <= k < n
        ensures var after := Landings(m, PAGE * t, h[..12], n)[k];
                BootConfig(after) in promise.configs && Page(after, promise.slot) == promise.page
      {
        assert h[..12][..4 * k + 4] == h[..4 * (k + 1)];
        HeaderLanded(m, c, h, data, k + 1);
      }
      assert h[..12][..4 * n] == h[..4 * n];
      HeaderLanded(m, c, h, data, n);
    }

    /** The commit word, written last. */
    method WriteCommit(h: bytes, ghost c: Choice, ghost data: bytes, ghost promise: Promise)
      returns (ok: bool, ghost landed: bool)
      requires flash.Valid() && Backed(Content(), c) && Boot(Content()) == c && staging == Some(Target(c))
      requires Acceptable(data) && h == HeaderBytes(Next(c).generation, data)
      requires Page(Content(), Target(c)) == PageWith(h, 3, data)
      requires Installed(data) in promise.configs && promise.slot == 1 - Target(c)
          && Page(Content(), promise.slot) == promise.page
      modifies flash, flash.mem
      ensures flash.Valid() && Backed(Content(), c) && Boot(Content()) == (if landed then Next(c) else c)
      ensures (ok ==> landed) && flash.faults == old(flash.faults) + if ok then 0 else 1
      ensures landed ==> BootConfig(Content()) == Installed(data)
      ensures ConfigOf(Content(), c) == old(ConfigOf(Content(), c))
      ensures ok ==> Boot(Content()) == Next(c) && Backed(Content(), Next(c))
                     && ConfigOf(Content(), Next(c)) == Installed(data)
                     && Page(Content(), Target(c)) == Committed(Next(c).generation, data)
      ensures old(flash.log) <= flash.log && Kept(flash.log, |old(flash.log)|, promise)
      ensures Page(Content(), promise.slot) == promise.page
    {
      hide Boot, Backed, ConfigOf, Page, BootConfig, Target, Program, OnlyClears, PageWith, Committed, HeaderBytes,
          Acceptable;
      ghost var m, t, n := Content(), Target(c), 0;
      CommitLanded(m, c, data);
      NothingProgrammed(m, PAGE * t + 12);
      ok, n := flash.Write(staging.value, 12, h[12..16]);
      landed := n == 1;
      assert h[12..16][..0] == [] && h[12..16][..4] == h[12..16];
    }

    /** The check before the header: an empty transaction, or a container that validates. */
    method ReceivedIsAcceptable() returns (ok: bool)
      requires Valid() && Writing() && received == expected
      ensures ok <==> Acceptable(open)
    {
      hide Boot, Backed, ConfigOf, Validate, PageWith;
      var blob := ReadBlob();
      ok := true;
      if expected != 0 {
        var v := OdConfigValidate(blob);
        ok := v == Verdict.Valid;
      }
    }

    method ReadBlob() returns (blob: bytes)
      requires Valid() && Writing() && received == expected
      ensures blob == open
    {
      hide Boot, Backed, ConfigOf, Page, PageWith, Target;
      var at := PAGE * staging.value + HEADER;
      blob := flash.mem[at..at + expected];
      PagePart(Content(), staging.value, HEADER, expected);
      StagedPart(open);
    }

  }

  lemma NothingLogged(log: seq<Image>, p: Promise)
    requires p.slot < 2
    ensures Kept(log, |log|, p)
  {
  }

  lemma KeptWiden(a: seq<Image>, b: seq<Image>, p: Promise, q: Promise)
    requires p.slot == q.slot < 2 && p.page == q.page && p.configs <= q.configs && a <= b && Kept(b, |a|, p)
    ensures Kept(b, |a|, q)
  {
    hide BootConfig, Page;
  }

  lemma KeptJoin(a: seq<Image>, b: seq<Image>, c: seq<Image>, p: Promise)
    requires p.slot < 2 && a <= b <= c && Kept(b, |a|, p) && Kept(c, |b|, p)
    ensures Kept(c, |a|, p)
  {
    hide BootConfig, Page;
  }

  lemma StagedHeader(h: bytes, data: bytes)
    requires |h| == HEADER && |data| <= CONFIG_MAX
    ensures Staged(data) == PageWith(h, 0, data)
  {
  }

  lemma PagePart(m: Image, i: nat, o: nat, n: nat)
    requires i < 2 && o + n <= PAGE
    ensures Page(m, i)[o..o + n] == m[PAGE * i + o..PAGE * i + o + n]
  {
    var part, piece := Page(m, i)[o..o + n], m[PAGE * i + o..PAGE * i + o + n];
    forall k | 0 <= k < n
      ensures part[k] == piece[k]
    {
      assert Page(m, i)[o + k] == m[PAGE * i + o + k];
    }
  }

  lemma StagedPart(data: bytes)
    requires |data| <= CONFIG_MAX
    ensures Staged(data)[HEADER..HEADER + |data|] == data
  {
  }

  lemma PageIs(m: Image, i: nat)
    requires i < 2
    ensures Page(m, i) == m[PAGE * i..PAGE * i + PAGE]
  {
  }

  lemma GenerationIs(p: bytes)
    requires |p| == PAGE
    ensures Generation(p) == Le(p[0..4])
  {
  }

  lemma BootIsBacked(m: Image)
    ensures Backed(m, Boot(m))
  {
    hide SlotOk, Newer, Page, Generation;
  }

  method ReadLe(s: bytes) returns (v: nat)
    ensures v == Le(s)
  {
    hide Val;
    v := 0;
    var i := |s|;
    while i > 0
      invariant 0 <= i <= |s| && v == Le(s[i..])
    {
      i := i - 1;
      assert s[i..][1..] == s[i + 1..];
      v := Val(s[i]) + TWO_8 * v;
    }
    assert s[0..] == s;
  }

  method CheckSlot(page: bytes) returns (ok: bool)
    requires |page| == PAGE
    ensures ok <==> SlotOk(page)
  {
    hide Validate, Crc, CrcValue, Le;
    var commit := ReadLe(page[12..16]);
    var n := ReadLe(page[4..8]);
    var sum := ReadLe(page[8..12]);
    if commit != COMMIT || n > CONFIG_MAX {
      return false;
    }
    var c := ComputeCrc(page[HEADER..HEADER + n], false);
    if CrcValue(c) != sum {
      return false;
    }
    if n != 0 {
      var v := OdConfigValidate(page[HEADER..HEADER + n]);
      return v == Verdict.Valid;
    }
    ok := true;
  }
}
