/** Octets, byte strings and the fixed-width integers the firmware packs into them. */
module Bytes {
  type byte = bv8
  type bytes = seq<byte>

  datatype Option<T> = None | Some(value: T)

  const TWO_8 := 0x100
  const TWO_16 := 0x1_0000
  const TWO_32 := 0x1_0000_0000
  const TWO_63 := 0x8000_0000_0000_0000
  const TWO_64 := 0x1_0000_0000_0000_0000

  function Val(b: byte): (v: nat)
    ensures v < 256
  {
    b as int
  }

  lemma ValSucc(b: byte)
    requires Val(b) < 255
    ensures Val(b + 1) == Val(b) + 1
  {
    assert Val(0xff) == 255;
  }

  /** The byte with a given value, reached by counting up from zero. */
  function ToByte(n: nat): (b: byte)
    requires n < 256
    ensures Val(b) == n
  {
    if n == 0 then 0 else ValSucc(ToByte(n - 1)); ToByte(n - 1) + 1
  }

  lemma ValMonotone(a: byte, b: byte)
    requires a < b
    ensures Val(a) < Val(b)
  {
  }

  lemma ValInjective(a: byte, b: byte)
    requires Val(a) == Val(b)
    ensures a == b
  {
    if a < b {
      ValMonotone(a, b);
    } else if b < a {
      ValMonotone(b, a);
    }
  }

  function Zeros(n: nat): (s: bytes)
    ensures |s| == n
  {
    seq(n, _ => 0)
  }

  /** Big-endian value of a byte string. */
  function Be(s: bytes): (v: nat) {
    if s == [] then 0 else TWO_8 * Be(s[..|s| - 1]) + Val(s[|s| - 1])
  }

  /** Little-endian value of a byte string. */
  function Le(s: bytes): (v: nat) {
    if s == [] then 0 else Val(s[0]) + TWO_8 * Le(s[1..])
  }

  function Pow256(n: nat): (p: nat)
    ensures p > 0
  {
    if n == 0 then 1 else TWO_8 * Pow256(n - 1)
  }

  lemma Pow256Values()
    ensures Pow256(1) == TWO_8 && Pow256(2) == TWO_16 && Pow256(4) == TWO_32 && Pow256(8) == TWO_64
  {
    assert Pow256(3) == TWO_8 * TWO_16;
    assert Pow256(5) == TWO_8 * TWO_32;
    assert Pow256(6) == TWO_16 * TWO_32;
    assert Pow256(7) == TWO_8 * TWO_16 * TWO_32;
  }

  /** The n low-order bytes of v, least significant first. */
  function LeBytes(v: nat, n: nat): (s: bytes)
    ensures |s| == n
  {
    if n == 0 then [] else [ToByte(v % TWO_8)] + LeBytes(v / TWO_8, n - 1)
  }

  /** The n low-order bytes of v, most significant first. */
  function BeBytes(v: nat, n: nat): (s: bytes)
    ensures |s| == n
  {
    if n == 0 then [] else BeBytes(v / TWO_8, n - 1) + [ToByte(v % TWO_8)]
  }

  lemma {:induction false} LeBound(s: bytes)
    ensures Le(s) < Pow256(|s|)
  {
    if s == [] {
    } else {
      LeBound(s[1..]);
    }
  }

  lemma {:induction false} BeBound(s: bytes)
    ensures Be(s) < Pow256(|s|)
  {
    if s == [] {
    } else {
      BeBound(s[..|s| - 1]);
    }
  }

  lemma {:induction false} LeOfLeBytes(v: nat, n: nat)
    requires v < Pow256(n)
    ensures Le(LeBytes(v, n)) == v
  {
    if n == 0 {
    } else {
      LeOfLeBytes(v / TWO_8, n - 1);
      assert LeBytes(v, n)[1..] == LeBytes(v / TWO_8, n - 1);
    }
  }

  lemma {:induction false} LeBytesOfLe(s: bytes)
    ensures LeBytes(Le(s), |s|) == s
  {
    hide ToByte, Val;
    if s == [] {
    } else {
      LeBytesOfLe(s[1..]);
      ValInjective(ToByte(Le(s) % TWO_8), s[0]);
    }
  }

  lemma {:induction false} BeOfBeBytes(v: nat, n: nat)
    requires v < Pow256(n)
    ensures Be(BeBytes(v, n)) == v
  {
    hide ToByte, Val;
    if n == 0 {
    } else {
      var high, low := BeBytes(v / TWO_8, n - 1), ToByte(v % TWO_8);
      DividedBound(v, n);
      BeOfBeBytes(v / TWO_8, n - 1);
      assert (high + [low])[..n - 1] == high;
    }
  }

  lemma DividedBound(v: nat, n: nat)
    requires n > 0 && v < Pow256(n)
    ensures v / TWO_8 < Pow256(n - 1)
  {
  }

  lemma {:induction false} BeBytesOfBe(s: bytes)
    ensures BeBytes(Be(s), |s|) == s
  {
    hide ToByte, Val;
    if s == [] {
    } else {
      var n := |s| - 1;
      BeBytesOfBe(s[..n]);
      ValInjective(ToByte(Be(s) % TWO_8), s[n]);
    }
  }

  /** The first byte of a big-endian number weighs most, and that of a little-endian one least. */
  lemma {:induction false} BeFront(s: bytes)
    requires s != []
    ensures Be(s) == Val(s[0]) * Pow256(|s| - 1) + Be(s[1..])
  {
    hide Val;
    var n := |s| - 1;
    if n == 0 {
      assert s[..0] == [] && s[1..] == [];
    } else {
      BeFront(s[..n]);
      assert s[..n][1..] == s[1..][..n - 1];
      assert s[1..][n - 1] == s[n] && s[..n][0] == s[0];
      Weigh(Val(s[0]), Pow256(n - 1), Be(s[..n][1..]));
    }
  }

  lemma Weigh(v: nat, p: nat, rest: nat)
    ensures TWO_8 * (v * p + rest) == v * (TWO_8 * p) + TWO_8 * rest
  {
  }

  /** Two and four bytes, written out. */
  lemma Digits(a: byte, b: byte, c: byte, d: byte)
    ensures Be([a, b]) == 0x100 * Val(a) + Val(b)
    ensures Be([a, b, c, d]) == 0x100_0000 * Val(a) + 0x1_0000 * Val(b) + 0x100 * Val(c) + Val(d)
    ensures Le([a, b]) == Val(a) + 0x100 * Val(b)
    ensures Le([a, b, c, d]) == Val(a) + 0x100 * Val(b) + 0x1_0000 * Val(c) + 0x100_0000 * Val(d)
  {
    hide Val;
    assert [a, b][..1] == [a] && [a, b, c, d][..3] == [a, b, c] && [a, b, c][..2] == [a, b] && [a][..0] == [];
    assert Be([a]) == Val(a);
    assert Be([a, b, c]) == TWO_8 * Be([a, b]) + Val(c);
    assert [a, b, c, d][1..] == [b, c, d] && [b, c, d][1..] == [c, d] && [c, d][1..] == [d] && [d][1..] == [];
    assert Le([d]) == Val(d);
    assert Le([c, d]) == Val(c) + TWO_8 * Le([d]);
    assert Le([b, c, d]) == Val(b) + TWO_8 * Le([c, d]);
    assert [a, b][1..] == [b] && [b][1..] == [];
    assert Le([b]) == Val(b);
  }

  // ----- byte strings in pieces

  function Flatten(frames: seq<bytes>): bytes {
    if frames == [] then [] else Flatten(frames[..|frames| - 1]) + frames[|frames| - 1]
  }

  lemma FlattenSnoc(frames: seq<bytes>, f: bytes)
    ensures Flatten(frames + [f]) == Flatten(frames) + f
  {
    assert (frames + [f])[..|frames|] == frames;
  }

  lemma {:induction false} FlattenGrows(frames: seq<bytes>, i: nat)
    requires i <= |frames|
    ensures |Flatten(frames[..i])| <= |Flatten(frames)|
  {
    var n := |frames|;
    if i == n {
      assert frames[..i] == frames;
    } else {
      FlattenGrows(frames[..n - 1], i);
      assert frames[..n - 1][..i] == frames[..i];
    }
  }

  /** Non-empty pieces are no more than their bytes. */
  lemma {:induction false} FlattenLength(frames: seq<bytes>)
    requires [] !in frames
    ensures |frames| <= |Flatten(frames)|
  {
    if frames == [] {
    } else {
      FlattenLength(frames[..|frames| - 1]);
    }
  }

  /** The first of non-empty pieces are shorter than all of them. */
  lemma {:induction false} FlattenSplit(frames: seq<bytes>, i: nat)
    requires i <= |frames| && [] !in frames
    ensures |Flatten(frames[..i])| <= |Flatten(frames)|
        && (i < |frames| ==> |Flatten(frames[..i])| < |Flatten(frames)|)
  {
    var n := |frames|;
    if i == n {
      assert frames[..i] == frames;
    } else {
      FlattenSplit(frames[..n - 1], i);
      assert frames[..n - 1][..i] == frames[..i];
    }
  }
}
