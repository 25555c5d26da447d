/** The od_flash_ops boundary: two 1 KiB pages of NOR flash. An erase is atomic; a write lands
    word by word, can only clear bits, and may fail after any word. */
module Flash {
  import opened Bytes

  const PAGE := 1024

  /** The content of both pages, slot 0 first. */
  type Image = s: bytes | |s| == 2048 witness Zeros(2048)

  function Page(m: Image, slot: nat): (p: bytes)
    requires slot < 2
    ensures |p| == PAGE
  {
    m[PAGE * slot..PAGE * slot + PAGE]
  }

  function Ones(n: nat): (s: bytes)
    ensures |s| == n
  {
    seq(n, _ => 0xff)
  }

  function Erased(m: Image, slot: nat): Image
    requires slot < 2
  {
    m[..PAGE * slot] + Ones(PAGE) + m[PAGE * slot + PAGE..]
  }

  /** Programming clears bits and never sets them. */
  function Program(m: Image, at: nat, data: bytes): (r: Image)
    requires at + |data| <= |m|
  {
    seq(|m|, i requires 0 <= i < |m| => if at <= i < at + |data| then m[i] & data[i - at] else m[i])
  }

  /** No bit of data would have to be set. */
  predicate OnlyClears(m: Image, at: nat, data: bytes)
    requires at + |data| <= |m|
  {
    forall i :: 0 <= i < |data| ==> m[at + i] & data[i] == data[i]
  }

  /** The contents the device passes through while the first n words of data land. */
  function Landings(m: Image, at: nat, data: bytes, n: nat): (l: seq<Image>)
    requires 4 * n <= |data| && at + |data| <= |m|
    ensures |l| == n
  {
    seq(n, k requires 0 <= k < n => Program(m, at, data[..4 * k + 4]))
  }

  lemma ProgramOn(m: Image, at: nat, data: bytes, i: nat)
    requires at + |data| <= |m| && i + 4 <= |data|
    ensures Program(Program(m, at, data[..i]), at + i, data[i..i + 4]) == Program(m, at, data[..i + 4])
  {
  }

  class Device {
    const mem: array<byte>
    /** Every content the device has had since it was made: what a power cut can leave behind. */
    ghost var log: seq<Image>
    /** How many operations have failed so far. */
    ghost var faults: nat

    ghost predicate Valid()
      reads this, mem
    {
      mem.Length == 2048 && log != [] && log[|log| - 1] == mem[..]
    }

    ghost function Content(): Image
      requires mem.Length == 2048
      reads this, mem
    {
      mem[..]
    }

    /** The device starts with arbitrary content. */
    constructor (content: Image)
      ensures Valid() && fresh(mem) && Content() == content && log == [content] && faults == 0
    {
      mem := new byte[2048](i requires 0 <= i < 2048 => content[i]);
      log, faults := [content], 0;
      new;
      assert mem[..] == content;
    }

    method Erase(slot: nat) returns (ok: bool)
      requires Valid() && slot < 2
      modifies this, mem
      ensures Valid()
      ensures ok ==> Content() == Erased(old(Content()), slot) && log == old(log) + [Content()]
      ensures !ok ==> Content() == old(Content()) && log == old(log)
      ensures faults == old(faults) + if ok then 0 else 1
    {
      ok := *;
      if ok {
        ghost var was := mem[..];
        for i := 0 to PAGE
          invariant log == old(log) && faults == old(faults)
          invariant forall j :: 0 <= j < 2048 ==> mem[j] == if PAGE * slot <= j < PAGE * slot + i then 0xff else was[j]
        {
          mem[PAGE * slot + i] := 0xff;
        }
        assert mem[..] == Erased(was, slot);
        log := log + [mem[..]];
      } else {
        faults := faults + 1;
      }
    }

    method ProgramWord(at: nat, word: bytes)
      requires mem.Length == 2048 && |word| == 4 && at + 4 <= 2048
      modifies mem
      ensures Content() == Program(old(Content()), at, word)
    {
      ghost var was := mem[..];
      for i := 0 to 4
        invariant forall j :: 0 <= j < 2048 ==> mem[j] == if at <= j < at + i then was[j] & word[j - at] else was[j]
      {
        mem[at + i] := mem[at + i] & word[i];
      }
      assert mem[..] == Program(was, at, word);
    }

    /** A write lands n of its words; success means all of them, a failure may come after any. */
    method Write(slot: nat, offset: nat, data: bytes) returns (ok: bool, ghost n: nat)
      requires Valid() && slot < 2
      requires offset % 4 == 0 && |data| % 4 == 0 && offset + |data| <= PAGE
      requires OnlyClears(Content(), PAGE * slot + offset, data)
      modifies this, mem
      ensures Valid()
      ensures 4 * n <= |data| && (ok ==> 4 * n == |data|)
      ensures Content() == Program(old(Content()), PAGE * slot + offset, data[..4 * n])
      ensures log == old(log) + Landings(old(Content()), PAGE * slot + offset, data, n)
      ensures faults == old(faults) + if ok then 0 else 1
    {
      hide Program, OnlyClears;
      ghost var was := mem[..];
      var at, i := PAGE * slot + offset, 0;
      n := 0;
      NothingProgrammed(was, at);
      while i < |data|
        invariant i == 4 * n <= |data| && |data| % 4 == 0
        invariant mem[..] == Program(was, at, data[..i]) && faults == old(faults)
        invariant log == old(log) + Landings(was, at, data, n) && log[|log| - 1] == mem[..]
      {
        var fault: bool := *;
        if fault {
          faults := faults + 1;
          return false, n;
        }
        ProgramWord(at + i, data[i..i + 4]);
        ProgramOn(was, at, data, i);
        log := log + [mem[..]];
        i, n := i + 4, n + 1;
      }
      ok := *;
      if !ok {
        faults := faults + 1;
      }
    }
  }

  lemma NothingProgrammed(m: Image, at: nat)
    requires at <= |m|
    ensures Program(m, at, []) == m
  {
  }
}
