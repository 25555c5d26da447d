/** crc() of src/config_store.c: CRC-16 with polynomial 0x1021 and initial value 0xffff, and
    which two-byte errors it cannot see. */
module Checksum {
  import opened Bytes

  function Xor16(a: bv16, b: bv16): bv16 {
    a ^ b
  }

  /** One message bit. The mask is 0x1021 when the top bit is shifted out and 0 otherwise. */
  function CrcBit(c: bv16): bv16 {
    (c << 1) ^ (0x1021 & (0 - (c >> 15)))
  }

  function CrcBits(c: bv16, n: nat): bv16 {
    if n == 0 then c else CrcBit(CrcBits(c, n - 1))
  }

  function High(b: byte): bv16 {
    (b as bv16) << 8
  }

  function CrcByte(c: bv16, b: byte): bv16 {
    CrcBits(Xor16(c, High(b)), 8)
  }

  function CrcFrom(c: bv16, s: bytes): bv16 {
    if s == [] then c else CrcByte(CrcFrom(c, s[..|s| - 1]), s[|s| - 1])
  }

  /** The bytes the outer checksum covers: a container's first two count as zero. */
  function Covered(s: bytes, outer: bool): (r: bytes)
    ensures |r| == |s|
  {
    seq(|s|, i requires 0 <= i < |s| => if outer && i < 2 then 0 else s[i])
  }

  function Crc(s: bytes, outer: bool): bv16 {
    CrcFrom(0xffff, Covered(s, outer))
  }

  /** The bit step as the inner loop of crc() writes it, with a conditional. */
  method ShiftOut(c: bv16) returns (r: bv16)
    ensures r == CrcBit(c)
  {
    if c & 0x8000 != 0 {
      r := (c << 1) ^ 0x1021;
    } else {
      r := (c << 1) ^ 0;
    }
  }

  /** crc(): the two nested loops compute Crc. */
  method ComputeCrc(data: bytes, outer: bool) returns (c: bv16)
    ensures c == Crc(data, outer)
  {
    hide CrcBit, High, Xor16;
    c := 0xffff;
    ghost var s := Covered(data, outer);
    for i := 0 to |data|
      invariant c == CrcFrom(0xffff, s[..i])
    {
      ghost var before := c;
      c := Xor16(c, High(if outer && i < 2 then 0 else data[i]));
      for b := 0 to 8
        invariant c == CrcBits(Xor16(before, High(s[i])), b)
      {
        c := ShiftOut(c);
      }
      assert s[..i + 1][..i] == s[..i];
    }
    assert s[..|s|] == s;
  }

  // ----- the checksum step is linear and injective -----

  lemma ShiftLinear(c: bv16, d: bv16)
    ensures CrcBit(c ^ d) == CrcBit(c) ^ CrcBit(d)
  {
  }

  lemma CrcBitLinear(c: bv16, d: bv16)
    ensures CrcBit(Xor16(c, d)) == Xor16(CrcBit(c), CrcBit(d))
  {
    hide CrcBit;
    ShiftLinear(c, d);
  }

  lemma CrcBitInjective(c: bv16, d: bv16)
    requires CrcBit(c) == CrcBit(d)
    ensures c == d
  {
  }

  lemma {:induction false} CrcBitsLinear(c: bv16, d: bv16, n: nat)
    ensures CrcBits(Xor16(c, d), n) == Xor16(CrcBits(c, n), CrcBits(d, n))
  {
    hide CrcBit, Xor16;
    if n == 0 {
    } else {
      CrcBitsLinear(c, d, n - 1);
      CrcBitLinear(CrcBits(c, n - 1), CrcBits(d, n - 1));
    }
  }

  lemma {:induction false} CrcBitsInjective(c: bv16, d: bv16, n: nat)
    requires CrcBits(c, n) == CrcBits(d, n)
    ensures c == d
  {
    hide CrcBit;
    if n == 0 {
    } else {
      CrcBitInjective(CrcBits(c, n - 1), CrcBits(d, n - 1));
      CrcBitsInjective(c, d, n - 1);
    }
  }

  lemma XorTwice(a: bv16, p: bv16)
    ensures Xor16(Xor16(a, p), p) == a && Xor16(p, Xor16(p, a)) == a
  {
  }

  lemma XorSame(c: bv16, d: bv16)
    ensures Xor16(c, d) == 0 <==> c == d
  {
    hide Xor16;
    XorTwice(d, c);
    XorZero(c);
  }

  lemma XorZero(c: bv16)
    ensures Xor16(c, 0) == c && Xor16(c, c) == 0
  {
  }

  lemma XorCommon(c: bv16, d: bv16, x: bv16)
    ensures Xor16(Xor16(c, x), Xor16(d, x)) == Xor16(c, d)
    ensures Xor16(Xor16(x, c), Xor16(x, d)) == Xor16(c, d)
  {
  }

  lemma XorCancel(c: bv16, d: bv16, x: bv16)
    ensures Xor16(c, x) == Xor16(d, x) <==> c == d
    ensures Xor16(Xor16(c, x), Xor16(d, x)) == Xor16(c, d)
    ensures Xor16(Xor16(x, c), Xor16(x, d)) == Xor16(c, d)
    ensures Xor16(c, d) == 0 <==> c == d
  {
    hide Xor16;
    XorTwice(c, x);
    XorTwice(d, x);
    XorCommon(c, d, x);
    XorSame(c, d);
  }

  /** Each step is injective in the register, so a difference never vanishes over equal bytes. */
  lemma {:induction false} CrcFromInjective(c: bv16, d: bv16, s: bytes)
    requires CrcFrom(c, s) == CrcFrom(d, s)
    ensures c == d
  {
    hide CrcBits, High, Xor16;
    if s == [] {
    } else {
      var n := |s| - 1;
      var x, y := CrcFrom(c, s[..n]), CrcFrom(d, s[..n]);
      CrcBitsInjective(Xor16(x, High(s[n])), Xor16(y, High(s[n])), 8);
      XorCancel(x, y, High(s[n]));
      CrcFromInjective(c, d, s[..n]);
    }
  }

  lemma {:induction false} CrcFromConcat(c: bv16, s: bytes, t: bytes)
    ensures CrcFrom(c, s + t) == CrcFrom(CrcFrom(c, s), t)
  {
    hide CrcByte;
    if t == [] {
      assert s + t == s;
    } else {
      var n := |t| - 1;
      assert (s + t)[..|s + t| - 1] == s + t[..n];
      CrcFromConcat(c, s, t[..n]);
    }
  }

  // ----- what one changed byte does to the register -----

  /** The register difference caused by changing one byte by d. */
  function Ripple(d: byte): bv16 {
    CrcBits(High(d), 8)
  }

  /** The XOR of the table entries of the bits set in d. */
  function Select(d: byte, t: seq<bv16>): bv16
    requires |t| == 8
  {
    Xor16(Xor16(Xor16(Pick(d, 0, t[0]), Pick(d, 1, t[1])), Xor16(Pick(d, 2, t[2]), Pick(d, 3, t[3]))),
          Xor16(Xor16(Pick(d, 4, t[4]), Pick(d, 5, t[5])), Xor16(Pick(d, 6, t[6]), Pick(d, 7, t[7]))))
  }

  function Pick(d: byte, k: bv8, v: bv16): bv16
    requires k < 8
  {
    v & (0 - (((d >> k) & 1) as bv16))
  }

  const UNIT: seq<bv16> := [0x100, 0x200, 0x400, 0x800, 0x1000, 0x2000, 0x4000, 0x8000]
  const RIPPLE: seq<bv16> := [0x1021, 0x2042, 0x4084, 0x8108, 0x1231, 0x2462, 0x48c4, 0x9188]

  lemma PickCases(d: byte, k: bv8, v: bv16)
    requires k < 8
    ensures (d >> k) & 1 == 1 ==> Pick(d, k, v) == v
    ensures (d >> k) & 1 != 1 ==> Pick(d, k, v) == 0
  {
  }

  lemma PickRipple(d: byte, k: bv8, u: bv16, v: bv16)
    requires k < 8 && CrcBits(u, 8) == v
    ensures CrcBits(Pick(d, k, u), 8) == Pick(d, k, v)
  {
    hide CrcBits, Pick;
    PickCases(d, k, u);
    PickCases(d, k, v);
    RippleBasis();
  }

  lemma Unrolled(x: bv16)
    ensures CrcBits(x, 8) == CrcBit(CrcBit(CrcBit(CrcBit(CrcBit(CrcBit(CrcBit(CrcBit(x))))))))
  {
    hide CrcBit;
    assert CrcBits(x, 2) == CrcBit(CrcBits(x, 1)) && CrcBits(x, 1) == CrcBit(CrcBits(x, 0));
    assert CrcBits(x, 4) == CrcBit(CrcBits(x, 3)) && CrcBits(x, 3) == CrcBit(CrcBits(x, 2));
    assert CrcBits(x, 6) == CrcBit(CrcBits(x, 5)) && CrcBits(x, 5) == CrcBit(CrcBits(x, 4));
    assert CrcBits(x, 7) == CrcBit(CrcBits(x, 6));
  }

  lemma RippleBasis()
    ensures CrcBits(0, 8) == 0
    ensures CrcBits(0x100, 8) == 0x1021 && CrcBits(0x200, 8) == 0x2042
    ensures CrcBits(0x400, 8) == 0x4084 && CrcBits(0x800, 8) == 0x8108
    ensures CrcBits(0x1000, 8) == 0x1231 && CrcBits(0x2000, 8) == 0x2462
    ensures CrcBits(0x4000, 8) == 0x48c4 && CrcBits(0x8000, 8) == 0x9188
  {
    hide CrcBits;
    assert CrcBit(0) == 0;
    Unrolled(0);
    Unrolled(0x100);
    Unrolled(0x200);
    Unrolled(0x400);
    Unrolled(0x800);
    Unrolled(0x1000);
    Unrolled(0x2000);
    Unrolled(0x4000);
    Unrolled(0x8000);
  }

  lemma HighBits(d: byte)
    ensures High(d) == Select(d, UNIT)
  {
  }

  /** One changed byte ripples through as the table of its bits. */
  lemma RippleIsTable(d: byte)
    ensures Ripple(d) == Select(d, RIPPLE)
  {
    hide CrcBits, Pick, High, Xor16;
    HighBits(d);
    RippleBasis();
    PickRipple(d, 0, 0x100, 0x1021);
    PickRipple(d, 1, 0x200, 0x2042);
    PickRipple(d, 2, 0x400, 0x4084);
    PickRipple(d, 3, 0x800, 0x8108);
    PickRipple(d, 4, 0x1000, 0x1231);
    PickRipple(d, 5, 0x2000, 0x2462);
    PickRipple(d, 6, 0x4000, 0x48c4);
    PickRipple(d, 7, 0x8000, 0x9188);
    var p0, p1, p2, p3 := Pick(d, 0, 0x100), Pick(d, 1, 0x200), Pick(d, 2, 0x400), Pick(d, 3, 0x800);
    var p4, p5, p6, p7 := Pick(d, 4, 0x1000), Pick(d, 5, 0x2000), Pick(d, 6, 0x4000), Pick(d, 7, 0x8000);
    CrcBitsLinear(Xor16(Xor16(p0, p1), Xor16(p2, p3)), Xor16(Xor16(p4, p5), Xor16(p6, p7)), 8);
    CrcBitsLinear(Xor16(p0, p1), Xor16(p2, p3), 8);
    CrcBitsLinear(Xor16(p4, p5), Xor16(p6, p7), 8);
    CrcBitsLinear(p0, p1, 8);
    CrcBitsLinear(p2, p3, 8);
    CrcBitsLinear(p4, p5, 8);
    CrcBitsLinear(p6, p7, 8);
  }

  /** A changed byte always disturbs the low half of the register, so the next byte cannot
      cancel it; and it leaves the high half alone for exactly one change. */
  lemma RippleHalves(d: byte)
    ensures Select(d, RIPPLE) & 0xff == 0 <==> d == 0
    ensures Select(d, RIPPLE) & 0xff00 == 0 <==> d == 0 || d == 0x89
    ensures Select(0x89, RIPPLE) == 0xa1
  {
  }

  // ----- which two-byte changes the container checksum detects -----

  /** The checksum a container carries: its last two bytes, low byte first. */
  function Stored(s: bytes): bv16
    requires |s| >= 2
  {
    Word(s[|s| - 2], s[|s| - 1])
  }

  function Word(lo: byte, hi: byte): bv16 {
    (lo as bv16) | ((hi as bv16) << 8)
  }

  predicate Checked(s: bytes)
    requires |s| >= 2
  {
    Crc(s[..|s| - 2], true) == Stored(s)
  }

  lemma ByteChange(x: bv16, a: byte, b: byte)
    ensures Xor16(CrcByte(x, a), CrcByte(x, b)) == Select(a ^ b, RIPPLE)
  {
    hide CrcBits, Select;
    CrcBitsLinear(Xor16(x, High(a)), Xor16(x, High(b)), 8);
    XorCancel(High(a), High(b), x);
    assert Xor16(High(a), High(b)) == High(a ^ b) by { HighXor(a, b); }
    RippleIsTable(a ^ b);
  }

  lemma HighXor(a: byte, b: byte)
    ensures Xor16(High(a), High(b)) == High(a ^ b)
  {
  }

  lemma WordParts(lo: byte, hi: byte)
    ensures (Word(lo, hi) & 0xff) as bv8 == lo && (Word(lo, hi) >> 8) as bv8 == hi
  {
  }

  lemma WordInjective(a: byte, b: byte, c: byte, d: byte)
    ensures Word(a, b) == Word(c, d) <==> a == c && b == d
  {
    hide Word;
    WordParts(a, b);
    WordParts(c, d);
  }

  lemma WordDifference(a: byte, b: byte, h: byte)
    ensures Xor16(Word(a, h), Word(b, h)) == (a ^ b) as bv16
  {
  }

  lemma HighFacts(a: byte)
    ensures High(a) & 0xff == 0
    ensures High(a) == 0 ==> a == 0
  {
    assert ((High(a) >> 8) & 0xff) as bv8 == a;
  }

  lemma SameIffNoDifference(a: byte, b: byte)
    ensures a ^ b == 0 <==> a == b
  {
    assert b == a ^ (a ^ b);
  }

  /** Sixteen consecutive message bits determine the register. */
  lemma TwoBytesInjective(x: bv16, a0: byte, a1: byte, b0: byte, b1: byte)
    requires CrcByte(CrcByte(x, a0), a1) == CrcByte(CrcByte(x, b0), b1)
    ensures a0 == b0 && a1 == b1
  {
    hide CrcBits, Select, Xor16, High;
    var a, b := CrcByte(x, a0), CrcByte(x, b0);
    CrcBitsInjective(Xor16(a, High(a1)), Xor16(b, High(b1)), 8);
    ByteChange(x, a0, b0);
    HighXor(a1, b1);
    assert Xor16(a, b) == Xor16(High(a1), High(b1)) by { XorMove(a, High(a1), b, High(b1)); }
    HighFacts(a1 ^ b1);
    RippleHalves(a0 ^ b0);
    SameIffNoDifference(a0, b0);
    SameIffNoDifference(a1, b1);
    XorCancel(a, b, 0);
  }

  lemma XorMove(a: bv16, p: bv16, b: bv16, q: bv16)
    requires Xor16(a, p) == Xor16(b, q)
    ensures Xor16(a, b) == Xor16(p, q)
  {
    hide Xor16;
    var z := Xor16(a, p);
    XorTwice(a, p);
    XorTwice(b, q);
    XorCancel(p, q, z);
  }

  /** Two data bytes at i changed: the checksum over them is the same only if nothing changed. */
  lemma DataPairDetected(s: bytes, t: bytes, i: nat)
    requires |s| == |t| && 2 <= i && i + 2 <= |s|
    requires s[..i] == t[..i] && s[i + 2..] == t[i + 2..]
    ensures Crc(s, true) == Crc(t, true) <==> s == t
  {
    hide CrcFrom;
    var u, v := Covered(s, true), Covered(t, true);
    var p, r := u[..i], u[i + 2..];
    assert u == p + (s[i..i + 2] + r) && v == p + (t[i..i + 2] + r);
    CrcFromConcat(0xffff, p, s[i..i + 2] + r);
    CrcFromConcat(0xffff, p, t[i..i + 2] + r);
    var x := CrcFrom(0xffff, p);
    CrcFromConcat(x, s[i..i + 2], r);
    CrcFromConcat(x, t[i..i + 2], r);
    if Crc(s, true) == Crc(t, true) {
      CrcFromInjective(CrcFrom(x, s[i..i + 2]), CrcFrom(x, t[i..i + 2]), r);
      CrcFromPair(x, s[i..i + 2]);
      CrcFromPair(x, t[i..i + 2]);
      TwoBytesInjective(x, s[i], s[i + 1], t[i], t[i + 1]);
      assert s == s[..i] + [s[i], s[i + 1]] + s[i + 2..] == t;
    }
  }

  lemma CrcFromPair(x: bv16, s: bytes)
    requires |s| == 2
    ensures CrcFrom(x, s) == CrcByte(CrcByte(x, s[0]), s[1])
  {
    hide CrcByte;
    assert CrcFrom(x, s[..1]) == CrcByte(CrcFrom(x, s[..1][..0]), s[0]);
  }

  lemma LastDataByte(s: bytes, t: bytes)
    requires |s| == |t| > 2 && s[..|s| - 1] == t[..|s| - 1]
    ensures Xor16(Crc(s, true), Crc(t, true)) == Select(s[|s| - 1] ^ t[|s| - 1], RIPPLE)
  {
    hide Select, CrcByte, Xor16;
    var u, v, n := Covered(s, true), Covered(t, true), |s| - 1;
    assert u[..n] == v[..n];
    ByteChange(CrcFrom(0xffff, u[..n]), s[n], t[n]);
  }

  /** The one change of two bytes the checksum misses across the end of the data. */
  predicate Straddle(a: byte, b: byte, lo: byte, lo': byte) {
    a ^ b == 0x89 && lo ^ lo' == 0xa1
  }

  /** A container that passes still passes after a change confined to two adjacent bytes at or
      after index 2 if and only if nothing changed, or the change straddles the end of the data:
      the last data byte by 0x89 and the low checksum byte by 0xa1. The register leaves its high
      half first but is stored low byte first, so that one 16-bit pattern is no burst. */
  lemma AdjacentChangeDetected(s: bytes, t: bytes, i: nat)
    requires |s| == |t| >= 5 && 2 <= i && i + 2 <= |s|
    requires s[..i] == t[..i] && s[i + 2..] == t[i + 2..]
    requires Checked(s)
    ensures Checked(t) <==> s == t || (i == |s| - 3 && Straddle(s[i], t[i], s[i + 1], t[i + 1]))
  {
    hide Crc, Select, Xor16, Word, Straddle;
    var m := |s| - 2;
    if i + 2 <= m {
      ChangeInData(s, t, i);
    } else {
      assert s == s[..m] + [s[m], s[m + 1]] && t == t[..m] + [t[m], t[m + 1]];
      WordInjective(s[m], s[m + 1], t[m], t[m + 1]);
      if i < m {
        ChangeStraddles(s, t);
      }
    }
  }

  lemma ChangeInData(s: bytes, t: bytes, i: nat)
    requires |s| == |t| >= 5 && 2 <= i && i + 4 <= |s|
    requires s[..i] == t[..i] && s[i + 2..] == t[i + 2..]
    requires Checked(s)
    ensures Checked(t) <==> s == t
  {
    hide Crc, Word;
    var m := |s| - 2;
    assert s[..m][..i] == s[..i] == t[..m][..i] && s[..m][i + 2..] == s[i + 2..][..m - i - 2] == t[..m][i + 2..];
    DataPairDetected(s[..m], t[..m], i);
    assert s[m] == s[i + 2..][m - i - 2] && s[m + 1] == s[i + 2..][m - i - 1];
    assert s == s[..m] + [s[m], s[m + 1]] && t == t[..m] + [t[m], t[m + 1]];
  }

  lemma ChangeStraddles(s: bytes, t: bytes)
    requires |s| == |t| >= 5 && s[..|s| - 3] == t[..|s| - 3] && s[|s| - 1] == t[|s| - 1]
    requires Checked(s)
    ensures var n := |s| - 3;
            Checked(t) <==> s == t || Straddle(s[n], t[n], s[n + 1], t[n + 1])
  {
    hide Crc, Select, Xor16, Word, Straddle;
    var i, m := |s| - 3, |s| - 2;
    assert s[..m][..m - 1] == s[..i] == t[..i] == t[..m][..m - 1];
    assert s[i] == s[..m][m - 1] && t[i] == t[..m][m - 1];
    LastDataByte(s[..m], t[..m]);
    StraddleCases(Crc(s[..m], true), Crc(t[..m], true), s[i], t[i], s[m], t[m], s[m + 1]);
    assert s == s[..i] + [s[i], s[m], s[m + 1]] && t == t[..i] + [t[i], t[m], t[m + 1]];
  }

  lemma StraddleCases(x: bv16, y: bv16, a: byte, b: byte, lo: byte, lo': byte, hi: byte)
    requires x == Word(lo, hi) && Xor16(x, y) == Select(a ^ b, RIPPLE)
    ensures y == Word(lo', hi) <==> (a == b && lo == lo') || Straddle(a, b, lo, lo')
  {
    hide Select, Word, Xor16;
    var d, e := a ^ b, lo ^ lo';
    WordDifference(lo, lo', hi);
    SameIffNoDifference(a, b);
    SameIffNoDifference(lo, lo');
    XorLeft(x, y, Word(lo', hi));
    RippleHalves(d);
    RippleZero();
    WidenFacts(e);
    WidenFacts(0);
    WidenFacts(0xa1);
  }

  lemma RippleZero()
    ensures Select(0, RIPPLE) == 0
  {
  }

  lemma XorLeft(x: bv16, y: bv16, z: bv16)
    ensures Xor16(x, y) == Xor16(x, z) <==> y == z
  {
    hide Xor16;
    XorTwice(y, x);
    XorTwice(z, x);
  }

  lemma WidenFacts(a: byte)
    ensures (a as bv16) & 0xff00 == 0 && (a as bv16) as bv8 == a
  {
  }
}
