/** The two-slot layout of src/config_store.c on flash content: slot validity, which slot a boot
    selects, and what erasing, staging and committing do to that choice. */
module Slots {
  import opened Bytes
  import opened Checksum
  import opened Container
  import opened Flash

  const COMMIT := 0x434f444f
  const HEADER := 16

  function Generation(p: bytes): (g: nat)
    requires |p| == PAGE
    ensures g < TWO_32
  {
    LeBound(p[0..4]);
    Pow256Values();
    Le(p[0..4])
  }

  function Length(p: bytes): nat
    requires |p| == PAGE
  {
    Le(p[4..8])
  }

  function Sum(p: bytes): nat
    requires |p| == PAGE
  {
    Le(p[8..12])
  }

  function CommitWord(p: bytes): nat
    requires |p| == PAGE
  {
    Le(p[12..16])
  }

  function CrcValue(c: bv16): (v: nat)
    ensures v < TWO_16
  {
    c as int
  }

  /** What od_config_init demands of a slot. */
  predicate SlotOk(p: bytes)
    requires |p| == PAGE
  {
    CommitWord(p) == COMMIT
    && Length(p) <= CONFIG_MAX
    && CrcValue(Crc(p[HEADER..HEADER + Length(p)], false)) == Sum(p)
    && (Length(p) == 0 || Validate(p[HEADER..HEADER + Length(p)]) == Valid)
  }

  /** The wrapping comparison (int32_t)(a - b) > 0. */
  predicate Newer(a: nat, b: nat) {
    0 < (a - b) % TWO_32 < 0x8000_0000
  }

  /** A selected slot and its generation; no slot goes with generation 0. */
  datatype Choice = Choice(slot: Option<nat>, generation: nat)

  const NOTHING := Choice(None, 0)

  function Consider(m: Image, c: Choice, i: nat): Choice
    requires i < 2
  {
    var p := Page(m, i);
    if SlotOk(p) && (c.slot.None? || Newer(Generation(p), c.generation)) then Choice(Some(i), Generation(p)) else c
  }

  /** The slot a boot selects. */
  function Boot(m: Image): (c: Choice)
    ensures c.slot.Some? ==> c.slot.value < 2
  {
    Consider(m, Consider(m, NOTHING, 0), 1)
  }

  /** The configuration a choice of slot makes effective; a zero-length slot is a tombstone. */
  function ConfigOf(m: Image, c: Choice): bytes
    requires c.slot.Some? ==> c.slot.value < 2 && SlotOk(Page(m, c.slot.value))
  {
    if c.slot.Some? && Length(Page(m, c.slot.value)) != 0
    then Page(m, c.slot.value)[HEADER..HEADER + Length(Page(m, c.slot.value))]
    else DEFAULT
  }

  lemma BootIsOk(m: Image)
    ensures Boot(m).slot.Some? ==> SlotOk(Page(m, Boot(m).slot.value))
                                   && Generation(Page(m, Boot(m).slot.value)) == Boot(m).generation
    ensures Boot(m).slot.None? ==> Boot(m) == NOTHING && !SlotOk(Page(m, 0)) && !SlotOk(Page(m, 1))
  {
    hide SlotOk, Page, Generation;
  }

  /** The effective configuration after a power cut that leaves content m. */
  function BootConfig(m: Image): bytes {
    BootIsOk(m);
    ConfigOf(m, Boot(m))
  }

  // ----- the slot a transaction writes -----

  /** The slot that is not in use. */
  function Target(c: Choice): (t: nat)
    ensures t < 2
  {
    if c.slot == Some(0) then 1 else 0
  }

  /** The choice held in RAM is backed by flash, whatever the target slot holds. */
  predicate Backed(m: Image, c: Choice) {
    c.generation < TWO_32
    && if c.slot.Some? then c.slot.value < 2 && SlotOk(Page(m, c.slot.value))
                            && Generation(Page(m, c.slot.value)) == c.generation
       else c == NOTHING && !SlotOk(Page(m, 1))
  }

  function Next(c: Choice): Choice {
    Choice(Some(Target(c)), (c.generation + 1) % TWO_32)
  }

  /** A boot ignores an unfinished target slot. */
  lemma BootKeepsChoice(m: Image, c: Choice)
    requires Backed(m, c) && !SlotOk(Page(m, Target(c)))
    ensures Boot(m) == c
  {
    hide SlotOk, Page, Generation, Newer;
  }

  /** A boot prefers the target slot once it is committed one generation on, wrapping included. */
  lemma BootTakesNext(m: Image, c: Choice)
    requires Backed(m, c) && SlotOk(Page(m, Target(c)))
    requires Generation(Page(m, Target(c))) == Next(c).generation
    ensures Boot(m) == Next(c)
  {
    hide SlotOk, Page, Generation;
  }

  /** Backing depends on nothing but the slot in use (slot 1 when there is none). */
  lemma BackedElsewhere(m: Image, n: Image, c: Choice)
    requires Backed(m, c) && Page(n, 1 - Target(c)) == Page(m, 1 - Target(c))
    ensures Backed(n, c) && ConfigOf(n, c) == ConfigOf(m, c)
  {
    hide SlotOk, Page, Generation;
  }

  // ----- page contents during a transaction -----

  function HeaderBytes(generation: nat, data: bytes): (h: bytes)
    requires |data| <= CONFIG_MAX
    ensures |h| == HEADER
  {
    LeBytes(generation, 4) + LeBytes(|data|, 4) + LeBytes(CrcValue(Crc(data, false)), 4) + LeBytes(COMMIT, 4)
  }

  /** A page with the first words of a header written over received data. */
  function PageWith(h: bytes, words: nat, data: bytes): (p: bytes)
    requires |h| == HEADER && words <= 4 && |data| <= CONFIG_MAX
    ensures |p| == PAGE
  {
    h[..4 * words] + Ones(HEADER - 4 * words) + data + Ones(PAGE - HEADER - |data|)
  }

  /** Staging: an erased header, the received bytes, erased bytes beyond. */
  function Staged(data: bytes): (p: bytes)
    requires |data| <= CONFIG_MAX
    ensures |p| == PAGE
  {
    PageWith(Ones(HEADER), 0, data)
  }

  /** A committed page is determined by its generation and its data alone. */
  function Committed(generation: nat, data: bytes): (p: bytes)
    requires |data| <= CONFIG_MAX
    ensures |p| == PAGE
  {
    PageWith(HeaderBytes(generation, data), 4, data)
  }

  function Installed(data: bytes): bytes {
    if data == [] then DEFAULT else data
  }

  predicate Acceptable(data: bytes) {
    |data| <= CONFIG_MAX && (data == [] || Validate(data) == Valid)
  }

  lemma UncommittedNotOk(h: bytes, words: nat, data: bytes)
    requires |h| == HEADER && words <= 3 && |data| <= CONFIG_MAX
    ensures !SlotOk(PageWith(h, words, data))
  {
    hide Crc, Validate, Val;
    var p := PageWith(h, words, data);
    assert p[12..16] == [0xff, 0xff, 0xff, 0xff];
    LeOfOnes();
  }

  lemma LeOfOnes()
    ensures Le([0xff, 0xff, 0xff, 0xff]) == 0xffff_ffff
  {
    assert Val(0xff) == 255;
    assert Le([0xff]) == 255;
    assert Le([0xff, 0xff]) == 0xffff;
    assert [0xff as byte, 0xff, 0xff, 0xff][1..] == [0xff, 0xff, 0xff];
    assert [0xff as byte, 0xff, 0xff][1..] == [0xff, 0xff];
  }

  lemma CommittedIsOk(generation: nat, data: bytes)
    requires generation < TWO_32 && Acceptable(data)
    ensures var p := Committed(generation, data);
            SlotOk(p) && Generation(p) == generation && Length(p) == |data| && p[HEADER..HEADER + |data|] == data
  {
    hide Crc, Validate, Val, ToByte, Le, LeBytes, CrcValue, Pow256, Committed;
    Pow256Values();
    LeOfLeBytes(generation, 4);
    LeOfLeBytes(|data|, 4);
    LeOfLeBytes(CrcValue(Crc(data, false)), 4);
    LeOfLeBytes(COMMIT, 4);
    CommittedParts(generation, data);
  }

  lemma CommittedParts(generation: nat, data: bytes)
    requires |data| <= CONFIG_MAX
    ensures var p := Committed(generation, data);
            && p[0..4] == LeBytes(generation, 4) && p[4..8] == LeBytes(|data|, 4)
            && p[8..12] == LeBytes(CrcValue(Crc(data, false)), 4) && p[12..16] == LeBytes(COMMIT, 4)
            && p[HEADER..HEADER + |data|] == data
  {
    hide LeBytes, CrcValue, Crc;
    var a, b, c, d := LeBytes(generation, 4), LeBytes(|data|, 4), LeBytes(CrcValue(Crc(data, false)), 4),
        LeBytes(COMMIT, 4);
    FourWords(a, b, c, d, data, Ones(PAGE - HEADER - |data|));
    assert HeaderBytes(generation, data)[..16] == a + b + c + d;
    assert Committed(generation, data) == a + b + c + d + data + Ones(PAGE - HEADER - |data|);
  }

  lemma FourWords(a: bytes, b: bytes, c: bytes, d: bytes, data: bytes, rest: bytes)
    requires |a| == |b| == |c| == |d| == 4
    ensures var p := a + b + c + d + data + rest;
            p[0..4] == a && p[4..8] == b && p[8..12] == c && p[12..16] == d && p[16..16 + |data|] == data
  {
  }

  /** A committed page byte by byte: generation, length and inner checksum low byte first, the letters
      ODOC, the data, and erased flash. */
  lemma PageLayout(generation: nat, data: bytes)
    requires generation < TWO_32 && |data| <= CONFIG_MAX
    ensures var p := Committed(generation, data);
            && |p| == 1024
            && Val(p[0]) + 0x100 * Val(p[1]) + 0x1_0000 * Val(p[2]) + 0x100_0000 * Val(p[3]) == generation
            && Val(p[4]) + 0x100 * Val(p[5]) + 0x1_0000 * Val(p[6]) + 0x100_0000 * Val(p[7]) == |data|
            && Val(p[8]) + 0x100 * Val(p[9]) + 0x1_0000 * Val(p[10]) + 0x100_0000 * Val(p[11])
                 == Crc(data, false) as int
            && p[12..16] == [0x4f, 0x44, 0x4f, 0x43] && p[16..16 + |data|] == data
            && forall i :: 16 + |data| <= i < 1024 ==> p[i] == 0xff
  {
    hide Crc, Val, ToByte, Le, LeBytes, CrcValue, Pow256, Committed;
    var p, sum := Committed(generation, data), CrcValue(Crc(data, false));
    Unwritten(generation, data);
    Pow256Values();
    LeOfLeBytes(generation, 4);
    LeOfLeBytes(|data|, 4);
    LeOfLeBytes(sum, 4);
    CommittedParts(generation, data);
    FourBytes(p, 0);
    FourBytes(p, 4);
    FourBytes(p, 8);
    CommitLetters();
    SumIsCrc(data);
  }

  /** A slot is valid exactly when it starts like a committed page of some generation and some
      acceptable data. */
  lemma OkIsCommitted(p: bytes)
    requires |p| == PAGE
    ensures SlotOk(p) <==> exists g: nat, data :: IsPageOf(p, g, data)
  {
    hide SlotOk, IsPageOf;
    if SlotOk(p) {
      var data := OkPage(p);
    }
    if exists g: nat, data :: IsPageOf(p, g, data) {
      var g: nat, data :| IsPageOf(p, g, data);
      PageOk(p, g, data);
    }
  }

  predicate IsPageOf(p: bytes, g: nat, data: bytes)
    requires |p| == PAGE
  {
    g < TWO_32 && Acceptable(data) && p[..16 + |data|] == Committed(g, data)[..16 + |data|]
  }

  lemma OkPage(p: bytes) returns (data: bytes)
    requires |p| == PAGE && SlotOk(p)
    ensures IsPageOf(p, Generation(p), data)
  {
    hide Crc, Validate, Val, ToByte, Le, LeBytes, CrcValue, Committed;
    data := p[HEADER..HEADER + Length(p)];
    var q := Committed(Generation(p), data);
    LeBytesOfLe(p[0..4]);
    LeBytesOfLe(p[4..8]);
    LeBytesOfLe(p[8..12]);
    LeBytesOfLe(p[12..16]);
    CommittedParts(Generation(p), data);
    InParts(p, |data|);
    InParts(q, |data|);
  }

  lemma PageOk(p: bytes, g: nat, data: bytes)
    requires |p| == PAGE && IsPageOf(p, g, data)
    ensures SlotOk(p)
  {
    hide Crc, Validate, Val, ToByte, Le, LeBytes, CrcValue, Committed;
    var q := Committed(g, data);
    CommittedIsOk(g, data);
    SameParts(p, q, |data|);
  }

  lemma InParts(p: bytes, n: nat)
    requires |p| == PAGE && n <= CONFIG_MAX
    ensures p[..16 + n] == p[0..4] + p[4..8] + p[8..12] + p[12..16] + p[16..16 + n]
  {
  }

  lemma SameParts(p: bytes, q: bytes, n: nat)
    requires |p| == |q| == PAGE && n <= CONFIG_MAX && p[..16 + n] == q[..16 + n]
    ensures p[0..4] == q[0..4] && p[4..8] == q[4..8] && p[8..12] == q[8..12] && p[12..16] == q[12..16]
    ensures p[16..16 + n] == q[16..16 + n]
  {
    var u := p[..16 + n];
    assert p[0..4] == u[0..4] && p[4..8] == u[4..8] && p[8..12] == u[8..12] && p[12..16] == u[12..16];
    assert p[16..16 + n] == u[16..16 + n] == q[16..16 + n];
    assert q[0..4] == u[0..4] && q[4..8] == u[4..8] && q[8..12] == u[8..12] && q[12..16] == u[12..16];
  }

  lemma FourBytes(p: bytes, i: nat)
    requires i + 4 <= |p|
    ensures Le(p[i..i + 4]) ==
      Val(p[i]) + 0x100 * Val(p[i + 1]) + 0x1_0000 * Val(p[i + 2]) + 0x100_0000 * Val(p[i + 3])
  {
    hide Le, Val;
    assert p[i..i + 4] == [p[i], p[i + 1], p[i + 2], p[i + 3]];
    Digits(p[i], p[i + 1], p[i + 2], p[i + 3]);
  }

  lemma Unwritten(generation: nat, data: bytes)
    requires |data| <= CONFIG_MAX
    ensures forall i :: 16 + |data| <= i < 1024 ==> Committed(generation, data)[i] == 0xff
  {
    hide HeaderBytes;
  }

  lemma SumIsCrc(data: bytes)
    ensures CrcValue(Crc(data, false)) == Crc(data, false) as int
  {
    hide Crc;
  }

  lemma CommitLetters()
    ensures LeBytes(COMMIT, 4) == [0x4f, 0x44, 0x4f, 0x43]
  {
    hide ToByte;
    assert Val(0x4f) == 0x4f && Val(0x44) == 0x44 && Val(0x43) == 0x43;
    ValInjective(ToByte(0x4f), 0x4f);
    ValInjective(ToByte(0x44), 0x44);
    ValInjective(ToByte(0x43), 0x43);
    assert LeBytes(0x43, 1) == [ToByte(0x43)] + LeBytes(0, 0);
    assert LeBytes(0x434f, 2) == [ToByte(0x4f)] + LeBytes(0x43, 1);
    assert LeBytes(0x434f44, 3) == [ToByte(0x44)] + LeBytes(0x434f, 2);
  }

  /** Of two generations the newer is the one less than 2^31 ahead, across the wrap at 2^32. */
  lemma NewerByDistance(a: nat, b: nat)
    requires a < TWO_32 && b < TWO_32
    ensures Newer(a, b) <==> b < a < b + 0x8000_0000 || a + 0x8000_0000 < b
    ensures Newer(a, b) ==> !Newer(b, a)
  {
  }

  /** A boot takes the one valid slot, of two the newer, and slot 0 when neither is. */
  lemma BootChooses(m: Image)
    ensures var p, q, c := Page(m, 0), Page(m, 1), Boot(m);
            && (SlotOk(p) && SlotOk(q) ==> c.slot == Some(if Newer(Generation(q), Generation(p)) then 1 else 0))
            && (SlotOk(p) != SlotOk(q) ==> c.slot == Some(if SlotOk(q) then 1 else 0))
            && (!SlotOk(p) && !SlotOk(q) ==> c.slot == None)
  {
    hide SlotOk, Page, Generation, Newer;
  }

  /** Slot 0 is the first 1024 bytes of the flash and slot 1 the other. */
  lemma PagesOfFlash(m: Image)
    ensures |m| == 2048 && Page(m, 0) == m[..1024] && Page(m, 1) == m[1024..]
  {
  }

  // ----- what programming does to a staging page -----

  lemma AndFacts(d: byte)
    ensures 0xff & d == d && d & d == d
  {
  }

  lemma PageOfProgram(m: Image, t: nat, o: nat, w: bytes)
    requires t < 2 && o + |w| <= PAGE
    ensures var q := Page(Program(m, PAGE * t + o, w), t);
            forall j :: 0 <= j < PAGE ==> q[j] == if o <= j < o + |w| then Page(m, t)[j] & w[j - o] else Page(m, t)[j]
    ensures Page(Program(m, PAGE * t + o, w), 1 - t) == Page(m, 1 - t)
  {
  }

  lemma ClearsOnPage(m: Image, t: nat, o: nat, w: bytes)
    requires t < 2 && o + |w| <= PAGE
    requires forall j :: 0 <= j < |w| ==> Page(m, t)[o + j] & w[j] == w[j]
    ensures OnlyClears(m, PAGE * t + o, w)
  {
    forall j | 0 <= j < |w|
      ensures m[PAGE * t + o + j] & w[j] == w[j]
    {
      assert Page(m, t)[o + j] == m[PAGE * t + o + j];
    }
  }

  /** Writing header words over an erased header. */
  lemma ProgramHeader(m: Image, t: nat, h: bytes, data: bytes, from: nat, to: nat)
    requires t < 2 && |h| == HEADER && from <= to <= 4 && |data| <= CONFIG_MAX
    requires Page(m, t) == PageWith(h, from, data)
    ensures var at := PAGE * t + 4 * from;
            && OnlyClears(m, at, h[4 * from..4 * to])
            && Page(Program(m, at, h[4 * from..4 * to]), t) == PageWith(h, to, data)
            && Page(Program(m, at, h[4 * from..4 * to]), 1 - t) == Page(m, 1 - t)
  {
    hide Page, Program, OnlyClears;
    var o, w := 4 * from, h[4 * from..4 * to];
    PageOfProgram(m, t, o, w);
    var p, q, r := PageWith(h, from, data), Page(Program(m, PAGE * t + o, w), t), PageWith(h, to, data);
    forall j | 0 <= j < |w|
      ensures p[o + j] & w[j] == w[j]
    {
      AndFacts(w[j]);
    }
    ClearsOnPage(m, t, o, w);
    forall j | 0 <= j < PAGE
      ensures q[j] == r[j]
    {
      if o <= j < o + |w| {
        AndFacts(w[j - o]);
      }
    }
  }

  /** The word od_config_append writes: the flash word with new bytes put in at start. */
  function MergedWord(word: bytes, start: nat, chunk: bytes): (w: bytes)
    requires |word| == 4 && start + |chunk| <= 4
    ensures |w| == 4
  {
    word[..start] + chunk + word[start + |chunk|..]
  }

  /** Merging preserves the bytes already there and adds the chunk behind the received data. */
  lemma ProgramChunk(m: Image, t: nat, data: bytes, chunk: bytes, base: nat, start: nat)
    requires t < 2 && |data| + |chunk| <= CONFIG_MAX
    requires Page(m, t) == Staged(data)
    requires base + start == HEADER + |data| && base % 4 == 0 && start + |chunk| <= 4
    ensures var w := MergedWord(Page(m, t)[base..base + 4], start, chunk);
            && OnlyClears(m, PAGE * t + base, w)
            && Page(Program(m, PAGE * t + base, w), t) == Staged(data + chunk)
            && Page(Program(m, PAGE * t + base, w), 1 - t) == Page(m, 1 - t)
  {
    hide Page, Program, OnlyClears, MergedWord;
    var p, w := Staged(data), MergedWord(Page(m, t)[base..base + 4], start, chunk);
    PageOfProgram(m, t, base, w);
    MergedAt(p[base..base + 4], start, chunk);
    forall j | 0 <= j < 4
      ensures p[base + j] & w[j] == w[j]
    {
      AndFacts(w[j]);
    }
    ClearsOnPage(m, t, base, w);
    var q, r := Page(Program(m, PAGE * t + base, w), t), Staged(data + chunk);
    forall j | 0 <= j < PAGE
      ensures q[j] == r[j]
    {
      if base <= j < base + 4 {
        assert q[j] == w[j - base];
      }
    }
  }

  lemma MergedAt(word: bytes, start: nat, chunk: bytes)
    requires |word| == 4 && start + |chunk| <= 4
    ensures forall j :: 0 <= j < 4 ==>
      MergedWord(word, start, chunk)[j] == if start <= j < start + |chunk| then chunk[j - start] else word[j]
  {
  }

  lemma ErasePages(m: Image, t: nat)
    requires t < 2
    ensures Page(Erased(m, t), t) == Staged([]) && Page(Erased(m, t), 1 - t) == Page(m, 1 - t)
  {
  }

  // ----- the two writes that finish a transaction -----

  lemma StagedKeepsChoice(m: Image, c: Choice, h: bytes, words: nat, data: bytes)
    requires |h| == HEADER && words <= 3 && |data| <= CONFIG_MAX
    requires Backed(m, c) && Page(m, Target(c)) == PageWith(h, words, data)
    ensures Boot(m) == c && BootConfig(m) == ConfigOf(m, c)
  {
    hide SlotOk, Page, Boot, ConfigOf, PageWith;
    UncommittedNotOk(h, words, data);
    BootKeepsChoice(m, c);
  }

  /** With any of the first three header words landed, a boot still makes the old choice. */
  lemma HeaderLanded(m: Image, c: Choice, h: bytes, data: bytes, words: nat)
    requires |h| == HEADER && words <= 3 && |data| <= CONFIG_MAX
    requires Backed(m, c) && Page(m, Target(c)) == PageWith(h, 0, data)
    ensures var n := Program(m, PAGE * Target(c), h[..4 * words]);
            && Page(n, Target(c)) == PageWith(h, words, data) && Page(n, 1 - Target(c)) == Page(m, 1 - Target(c))
            && Backed(n, c) && Boot(n) == c && BootConfig(n) == ConfigOf(m, c) == ConfigOf(n, c)
  {
    hide SlotOk, Page, Boot, ConfigOf, PageWith, BootConfig, Program, Backed, OnlyClears, Target;
    ProgramHeader(m, Target(c), h, data, 0, words);
    assert h[0..4 * words] == h[..4 * words];
    var n := Program(m, PAGE * Target(c), h[..4 * words]);
    BackedElsewhere(m, n, c);
    StagedKeepsChoice(n, c, h, words, data);
  }

  /** Once the commit word has landed, a boot makes the next choice and finds the new data. */
  lemma CommitLanded(m: Image, c: Choice, data: bytes)
    requires Acceptable(data) && Backed(m, c)
    requires Page(m, Target(c)) == PageWith(HeaderBytes(Next(c).generation, data), 3, data)
    ensures var h, at := HeaderBytes(Next(c).generation, data), PAGE * Target(c) + 12;
            var n := Program(m, at, h[12..16]);
            && OnlyClears(m, at, h[12..16])
            && Page(n, Target(c)) == Committed(Next(c).generation, data)
                && Page(n, 1 - Target(c)) == Page(m, 1 - Target(c))
            && Backed(n, c) && Backed(n, Next(c)) && ConfigOf(n, c) == ConfigOf(m, c)
            && Boot(n) == Next(c) && BootConfig(n) == ConfigOf(n, Next(c)) == Installed(data)
  {
    hide SlotOk, Page, Boot, PageWith, Program, OnlyClears, Target, HeaderBytes, Generation, Validate;
    var h, t := HeaderBytes(Next(c).generation, data), Target(c);
    ProgramHeader(m, t, h, data, 3, 4);
    var n := Program(m, PAGE * t + 12, h[12..16]);
    BackedElsewhere(m, n, c);
    CommittedIsOk(Next(c).generation, data);
    BootTakesNext(n, c);
  }
}
