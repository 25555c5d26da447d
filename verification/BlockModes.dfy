/** What src/crypto.c is for, as the standards state it: AES-CMAC (RFC 4493) and CCM
    (RFC 3610) with M = 12, L = 2 and two bytes of associated data, over any block cipher. */
module BlockModes {
  import opened Bytes

  const TAG := 12

  type Block = s: bytes | |s| == 16 witness Zeros(16)
  type Nonce = s: bytes | |s| == 13 witness Zeros(13)
  type Aad = s: bytes | |s| == 2 witness Zeros(2)

  /** A total block cipher: key, then input block. */
  type Cipher = (Block, Block) -> Block

  const ZERO_BLOCK: Block := Zeros(16)

  function Xor(a: bytes, b: bytes): (r: bytes)
    requires |a| <= |b|
    ensures |r| == |a| && forall i :: 0 <= i < |a| ==> r[i] == a[i] ^ b[i]
  {
    seq(|a|, i requires 0 <= i < |a| => a[i] ^ b[i])
  }

  function XorBlocks(a: Block, b: Block): (r: Block)
    ensures forall i :: 0 <= i < 16 ==> r[i] == a[i] ^ b[i]
  {
    Xor(a, b)
  }

  // ----- multiplication by x in GF(2^128), section 2.3 of RFC 4493 -----

  /** A polynomial of degree below 128: its coefficients, constant term first. */
  type Poly = p: seq<bool> | |p| == 128 witness seq(128, _ => false)

  /** Multiplication by x modulo x^128 + x^7 + x^2 + x + 1: shift, then subtract the modulus
      from a polynomial of degree 128. */
  function TimesX(p: Poly): (r: Poly) {
    var shifted := [false] + p;
    seq(128, i requires 0 <= i < 128 => if shifted[128] then shifted[i] != (i in [0, 1, 2, 7]) else shifted[i])
  }

  function BitAt(b: byte, k: nat): bool
    requires k < 8
  {
    match k
    case 0 => b & 1 != 0
    case 1 => b & 2 != 0
    case 2 => b & 4 != 0
    case 3 => b & 8 != 0
    case 4 => b & 16 != 0
    case 5 => b & 32 != 0
    case 6 => b & 64 != 0
    case 7 => b & 128 != 0
  }

  /** The polynomial of a block read as a big-endian 128-bit number. */
  function PolyOf(b: Block): Poly {
    seq(128, i requires 0 <= i < 128 => BitAt(b[15 - i / 8], i % 8))
  }

  function ShiftIn(hi: byte, lo: byte): byte {
    (hi << 1) | (lo >> 7)
  }

  function Reduce(hi: byte, top: byte): byte {
    (hi << 1) ^ (0x87 & (0 - (top >> 7)))
  }

  /** The doubling that RFC 4493 writes as a shift and a conditional XOR with 0x87. */
  function Double(b: Block): (r: Block) {
    seq(16, i requires 0 <= i < 16 =>
      if i < 15 then ShiftIn(b[i], b[i + 1]) else Reduce(b[15], b[0]))
  }

  lemma ShiftBits(hi: byte, lo: byte, k: nat)
    requires k < 8
    ensures BitAt(ShiftIn(hi, lo), k) == if k == 0 then BitAt(lo, 7) else BitAt(hi, k - 1)
  {
  }

  lemma ReduceBits(hi: byte, top: byte, k: nat)
    requires k < 8
    ensures BitAt(Reduce(hi, top), k)
         == ((k > 0 && BitAt(hi, k - 1)) != (BitAt(top, 7) && k in [0, 1, 2, 7]))
  {
  }

  lemma PolyAt(b: Block, at: nat, k: nat)
    requires at < 16 && k < 8
    ensures PolyOf(b)[8 * (15 - at) + k] == BitAt(b[at], k)
  {
    hide BitAt;
    var i := 8 * (15 - at) + k;
    assert i / 8 == 15 - at && i % 8 == k;
  }

  lemma DoubleCoefficient(b: Block, at: nat, k: nat)
    requires at < 16 && k < 8
    ensures PolyOf(Double(b))[8 * (15 - at) + k] == TimesX(PolyOf(b))[8 * (15 - at) + k]
  {
    hide BitAt, ShiftIn, Reduce, PolyOf;
    var p, i := PolyOf(b), 8 * (15 - at) + k;
    PolyAt(Double(b), at, k);
    PolyAt(b, 0, 7);
    if k > 0 {
      PolyAt(b, at, k - 1);
    }
    if at == 15 {
      ReduceBits(b[15], b[0], k);
    } else {
      PolyAt(b, at + 1, 7);
      ShiftBits(b[at], b[at + 1], k);
    }
    assert TimesX(p)[i] == ((i > 0 && p[i - 1]) != (p[127] && i in [0, 1, 2, 7]));
  }

  /** Doubling is multiplication by x in GF(2^128). */
  lemma DoubleIsTimesX(b: Block)
    ensures PolyOf(Double(b)) == TimesX(PolyOf(b))
  {
    hide PolyOf, TimesX, Double;
    forall i | 0 <= i < 128
      ensures PolyOf(Double(b))[i] == TimesX(PolyOf(b))[i]
    {
      DoubleCoefficient(b, 15 - i / 8, i % 8);
    }
  }

  // ----- CBC-MAC, shared by both modes -----

  /** X_n of the CBC chain over the first n blocks. */
  function Chain(e: Cipher, k: Block, ms: seq<Block>): Block {
    if ms == [] then ZERO_BLOCK
    else e(k, XorBlocks(Chain(e, k, ms[..|ms| - 1]), ms[|ms| - 1]))
  }

  lemma ChainSnoc(e: Cipher, k: Block, ms: seq<Block>, m: Block)
    ensures Chain(e, k, ms + [m]) == e(k, XorBlocks(Chain(e, k, ms), m))
  {
    assert (ms + [m])[..|ms|] == ms;
  }

  /** The chain run forwards from an initial value, as CBC is usually written. */
  function Cbc(e: Cipher, k: Block, x: Block, ms: seq<Block>): Block
    decreases |ms|
  {
    if ms == [] then x else Cbc(e, k, e(k, XorBlocks(x, ms[0])), ms[1..])
  }

  lemma {:induction false} CbcSnoc(e: Cipher, k: Block, x: Block, ms: seq<Block>, m: Block)
    ensures Cbc(e, k, x, ms + [m]) == e(k, XorBlocks(Cbc(e, k, x, ms), m))
    decreases |ms|
  {
    if ms == [] {
      assert Cbc(e, k, x, [m]) == Cbc(e, k, e(k, XorBlocks(x, m)), []);
      assert ms + [m] == [m];
    } else {
      assert (ms + [m])[1..] == ms[1..] + [m];
      CbcSnoc(e, k, e(k, XorBlocks(x, ms[0])), ms[1..], m);
    }
  }

  /** The chain is CBC from a zero block, so that of one block is its encryption. */
  lemma {:induction false} ChainIsCbc(e: Cipher, k: Block, ms: seq<Block>)
    ensures Chain(e, k, ms) == Cbc(e, k, seq(16, _ => 0), ms)
    ensures |ms| == 1 ==> Chain(e, k, ms) == e(k, ms[0])
  {
    assert ZERO_BLOCK == seq(16, _ => 0);
    if ms == [] {
    } else {
      var n := |ms| - 1;
      ChainIsCbc(e, k, ms[..n]);
      CbcSnoc(e, k, ZERO_BLOCK, ms[..n], ms[n]);
      assert ms == ms[..n] + [ms[n]];
      XorZero(ms[n]);
    }
  }

  lemma XorZero(b: Block)
    ensures XorBlocks(ZERO_BLOCK, b) == b
  {
    forall i | 0 <= i < 16
      ensures XorBlocks(ZERO_BLOCK, b)[i] == b[i]
    {
      assert 0 ^ b[i] == b[i];
    }
  }

  /** Data cut into blocks, the last one padded with zeros. */
  function Padded(s: bytes): (r: seq<Block>)
    ensures |r| == (|s| + 15) / 16
  {
    seq((|s| + 15) / 16, i requires 0 <= i < (|s| + 15) / 16 => PadBlock(s[16 * i..Min(16 * i + 16, |s|)]))
  }

  function Min(a: nat, b: nat): nat {
    if a < b then a else b
  }

  function PadBlock(s: bytes): Block
    requires |s| <= 16
  {
    s + Zeros(16 - |s|)
  }

  lemma PaddedStep(s: bytes, pos: nat)
    requires pos % 16 == 0 && pos < |s|
    ensures Padded(s[..Min(pos + 16, |s|)]) == Padded(s[..pos]) + [PadBlock(s[pos..Min(pos + 16, |s|)])]
  {
    hide PadBlock;
    var next := Min(pos + 16, |s|);
    var l, r := Padded(s[..next]), Padded(s[..pos]) + [PadBlock(s[pos..next])];
    forall i | 0 <= i < |l|
      ensures l[i] == r[i]
    {
      assert s[..next][16 * i..Min(16 * i + 16, next)] == s[16 * i..Min(16 * i + 16, next)];
      if i < pos / 16 {
        assert s[..pos][16 * i..Min(16 * i + 16, pos)] == s[16 * i..16 * i + 16];
      }
    }
  }

  // ----- AES-CMAC, section 2.4 of RFC 4493 -----

  function Subkey1(e: Cipher, k: Block): Block {
    Double(e(k, ZERO_BLOCK))
  }

  function Subkey2(e: Cipher, k: Block): Block {
    Double(Subkey1(e, k))
  }

  /** Where the last block starts: an empty message still has one block. */
  function LastStart(n: nat): nat {
    if n == 0 then 0 else (n - 1) / 16 * 16
  }

  /** M_last of section 2.4: a full block takes the first subkey, a padded one the second. */
  function LastBlock(e: Cipher, k: Block, last: bytes): Block
    requires |last| <= 16
  {
    if |last| == 16 then XorBlocks(last, Subkey1(e, k))
    else XorBlocks(last + [0x80] + Zeros(15 - |last|), Subkey2(e, k))
  }

  function Cmac(e: Cipher, k: Block, m: bytes): Block {
    var at := LastStart(|m|);
    e(k, XorBlocks(Chain(e, k, Padded(m[..at])), LastBlock(e, k, m[at..])))
  }

  /** The subkeys are x and x^2 times the encrypted zero block. */
  lemma SubkeysArePowers(e: Cipher, k: Block)
    ensures var l := PolyOf(e(k, seq(16, _ => 0)));
            PolyOf(Subkey1(e, k)) == TimesX(l) && PolyOf(Subkey2(e, k)) == TimesX(TimesX(l))
  {
    hide PolyOf, TimesX, Double;
    assert ZERO_BLOCK == seq(16, _ => 0);
    DoubleIsTimesX(e(k, ZERO_BLOCK));
    DoubleIsTimesX(Subkey1(e, k));
  }

  /** The encrypted zero block of the example in section 4 of RFC 4493, and its subkeys. */
  const L_EXAMPLE: Block :=
    [0x7d, 0xf7, 0x6b, 0x0c, 0x1a, 0xb8, 0x99, 0xb3, 0x3e, 0x42, 0xf0, 0x47, 0xb9, 0x1b, 0x54, 0x6f]
  const K1_EXAMPLE: Block :=
    [0xfb, 0xee, 0xd6, 0x18, 0x35, 0x71, 0x33, 0x66, 0x7c, 0x85, 0xe0, 0x8f, 0x72, 0x36, 0xa8, 0xde]
  const K2_EXAMPLE: Block :=
    [0xf7, 0xdd, 0xac, 0x30, 0x6a, 0xe2, 0x66, 0xcc, 0xf9, 0x0b, 0xc1, 0x1e, 0xe4, 0x6d, 0x51, 0x3b]

  lemma SubkeyExample(e: Cipher, k: Block)
    requires e(k, ZERO_BLOCK) == L_EXAMPLE
    ensures Subkey1(e, k) == K1_EXAMPLE && Subkey2(e, k) == K2_EXAMPLE
  {
    hide Double;
    FirstSubkey();
    SecondSubkey();
  }

  lemma FirstSubkey()
    ensures Double(L_EXAMPLE) == K1_EXAMPLE
  {
    hide Double;
    DoubleBytes(L_EXAMPLE, K1_EXAMPLE);
  }

  lemma SecondSubkey()
    ensures Double(K1_EXAMPLE) == K2_EXAMPLE
  {
    hide Double;
    DoubleBytes(K1_EXAMPLE, K2_EXAMPLE);
  }

  lemma DoubleBytes(b: Block, r: Block)
    requires r[0] == ShiftIn(b[0], b[1]) && r[1] == ShiftIn(b[1], b[2]) && r[2] == ShiftIn(b[2], b[3])
    requires r[3] == ShiftIn(b[3], b[4]) && r[4] == ShiftIn(b[4], b[5]) && r[5] == ShiftIn(b[5], b[6])
    requires r[6] == ShiftIn(b[6], b[7]) && r[7] == ShiftIn(b[7], b[8]) && r[8] == ShiftIn(b[8], b[9])
    requires r[9] == ShiftIn(b[9], b[10]) && r[10] == ShiftIn(b[10], b[11]) && r[11] == ShiftIn(b[11], b[12])
    requires r[12] == ShiftIn(b[12], b[13]) && r[13] == ShiftIn(b[13], b[14]) && r[14] == ShiftIn(b[14], b[15])
    requires r[15] == Reduce(b[15], b[0])
    ensures Double(b) == r
  {
    hide ShiftIn, Reduce;
  }

  /** Block i of a message padded with a one bit and zeros. */
  function Marked(m: bytes, i: nat): Block {
    seq(16, j requires 0 <= j < 16 =>
      var at := 16 * i + j;
      if at < |m| then m[at] else if at == |m| then 0x80 else 0)
  }

  /** The blocks that section 2.4 feeds to the chain: the message cut in order, a last block that is
      full as it is and a partial or missing one marked and padded, and a subkey on the last. */
  function CmacBlocks(m: bytes, k1: Block, k2: Block): (bs: seq<Block>)
    ensures |bs| == if m == [] then 1 else (|m| + 15) / 16
  {
    var n := if m == [] then 1 else (|m| + 15) / 16;
    seq(n, i requires 0 <= i < n =>
      if i < n - 1 then Marked(m, i) else XorBlocks(Marked(m, i), if |m| == 16 * n then k1 else k2))
  }

  /** The CMAC is the chain over these blocks. */
  lemma CmacIsChain(e: Cipher, k: Block, m: bytes)
    ensures Cmac(e, k, m) == Chain(e, k, CmacBlocks(m, Subkey1(e, k), Subkey2(e, k)))
  {
    hide Chain, Subkey1, Subkey2, XorBlocks, Marked, Padded;
    var k1, k2 := Subkey1(e, k), Subkey2(e, k);
    var at, bs := LastStart(|m|), CmacBlocks(m, k1, k2);
    var n := |bs| - 1;
    assert at == 16 * n;
    LastIsMarked(m, m[at..], n);
    forall i | 0 <= i < n
      ensures Padded(m[..at])[i] == bs[i]
    {
      WholeIsMarked(m, at, i);
    }
    assert bs == Padded(m[..at]) + [LastBlock(e, k, m[at..])];
    ChainSnoc(e, k, Padded(m[..at]), LastBlock(e, k, m[at..]));
  }

  lemma LastIsMarked(m: bytes, last: bytes, n: nat)
    requires 16 * n <= |m| <= 16 * n + 16 && last == m[16 * n..]
    ensures Marked(m, n) == if |last| == 16 then last else last + [0x80] + Zeros(15 - |last|)
  {
  }

  lemma WholeIsMarked(m: bytes, at: nat, i: nat)
    requires 16 * i + 16 <= at <= |m|
    ensures Padded(m[..at])[i] == Marked(m, i)
  {
    assert Padded(m[..at])[i] == m[..at][16 * i..16 * i + 16];
  }

  // ----- CCM, sections 2.2 to 2.5 of RFC 3610 -----

  /** The flags octet of B_0: Adata, M' = (M - 2) / 2 and L' = L - 1. */
  function AuthFlags(adata: bool, m: nat, l: nat): byte
    requires 4 <= m <= 16 && m % 2 == 0 && 2 <= l <= 8
  {
    ToByte((if adata then 64 else 0) + 8 * ((m - 2) / 2) + (l - 1))
  }

  function AuthBlocks(nonce: Nonce, aad: Aad, data: bytes): seq<Block>
    requires |data| < TWO_16
  {
    var b0: Block := [AuthFlags(true, TAG, 2)] + nonce + BeBytes(|data|, 2);
    var b1: Block := BeBytes(|aad|, 2) + aad + Zeros(12);
    [b0, b1] + Padded(data)
  }

  function CounterBlock(nonce: Nonce, i: nat): Block {
    [1 as byte] + nonce + BeBytes(i, 2)
  }

  /** The T of section 2.2. */
  function Mac(e: Cipher, k: Block, nonce: Nonce, aad: Aad, data: bytes): (t: bytes)
    requires |data| < TWO_16
    ensures |t| == TAG
  {
    Chain(e, k, AuthBlocks(nonce, aad, data))[..TAG]
  }

  /** The key stream S_1, S_2, ... of section 2.3. */
  function KeyStream(e: Cipher, k: Block, nonce: Nonce, n: nat): (s: bytes)
    ensures |s| == n
  {
    seq(n, j requires 0 <= j => e(k, CounterBlock(nonce, j / 16 + 1))[j % 16])
  }

  function Tag(e: Cipher, k: Block, nonce: Nonce, aad: Aad, data: bytes): (u: bytes)
    requires |data| < TWO_16
    ensures |u| == TAG
  {
    Xor(Mac(e, k, nonce, aad, data), e(k, CounterBlock(nonce, 0)))
  }

  /** The encrypted and authenticated message of section 2.4. */
  function Seal(e: Cipher, k: Block, nonce: Nonce, aad: Aad, data: bytes): (c: bytes)
    requires |data| < TWO_16
    ensures |c| == |data| + TAG
  {
    Xor(data, KeyStream(e, k, nonce, |data|)) + Tag(e, k, nonce, aad, data)
  }

  /** The blocks that are authenticated, octet by octet: B_0 with flags 69 (associated data, M = 12,
      L = 2), nonce and length, B_1 with the associated data behind its length, and the message. */
  lemma AuthOctets(nonce: Nonce, aad: Aad, data: bytes)
    requires |data| < TWO_16
    ensures var bs := AuthBlocks(nonce, aad, data);
            && |bs| == 2 + (|data| + 15) / 16
            && bs[0] == [0x69] + nonce + [ToByte(|data| / 256), ToByte(|data| % 256)]
            && bs[1] == [0x00, 0x02, aad[0], aad[1]] + seq(12, _ => 0)
            && forall i, j :: 2 <= i < |bs| && 0 <= j < 16 ==>
                 bs[i][j] == if 16 * i + j < 32 + |data| then data[16 * i + j - 32] else 0
  {
    hide ToByte, Val, Padded;
    var bs := AuthBlocks(nonce, aad, data);
    FlagsOctet();
    TwoOctets(|data|);
    TwoOctets(2);
    ZeroAndTwo();
    ValInjective(ToByte(0), 0);
    ValInjective(ToByte(2), 2);
    assert aad == [aad[0], aad[1]];
    forall i, j | 2 <= i < |bs| && 0 <= j < 16
      ensures bs[i][j] == if 16 * i + j < 32 + |data| then data[16 * i + j - 32] else 0
    {
      assert bs[i] == Padded(data)[i - 2];
      PaddedOctet(data, i - 2, j);
    }
  }

  lemma PaddedOctet(s: bytes, i: nat, j: nat)
    requires i < (|s| + 15) / 16 && j < 16
    ensures Padded(s)[i][j] == if 16 * i + j < |s| then s[16 * i + j] else 0
  {
  }

  lemma ZeroAndTwo()
    ensures Val(0) == 0 && Val(2) == 2
  {
  }

  lemma FlagsOctet()
    ensures AuthFlags(true, TAG, 2) == 0x69
  {
    assert Val(0x69) == 105;
    ValInjective(ToByte(105), 0x69);
  }

  lemma TwoOctets(v: nat)
    requires v < TWO_16
    ensures BeBytes(v, 2) == [ToByte(v / 256), ToByte(v % 256)]
  {
    hide ToByte, BeBytes, Val;
    HighOctet(v);
    OneOctet(v / 256);
    MoreOctets(v, 1);
  }

  lemma HighOctet(v: nat)
    requires v < TWO_16
    ensures v / 256 < 256
  {
  }

  lemma OneOctet(v: nat)
    requires v < 256
    ensures BeBytes(v, 1) == [ToByte(v)]
  {
    hide ToByte, BeBytes, Val;
    MoreOctets(v, 0);
    NoOctets(v / 256);
  }

  lemma NoOctets(v: nat)
    ensures BeBytes(v, 0) == []
  {
  }

  lemma MoreOctets(v: nat, n: nat)
    ensures BeBytes(v, n + 1) == BeBytes(v / 256, n) + [ToByte(v % 256)]
  {
    hide ToByte;
  }

  /** A sealed message, octet by octet: each octet of the message under its octet of the encrypted
      counter blocks from 1 on, and behind them the first 12 of the chain over the blocks above, under
      the encrypted counter block 0. */
  lemma SealOctets(e: Cipher, k: Block, nonce: Nonce, aad: Aad, data: bytes)
    requires |data| < TWO_16
    ensures var c := Seal(e, k, nonce, aad, data);
            && |c| == |data| + 12
            && (forall j :: 0 <= j < |data| ==>
                  var i := j / 16 + 1;
                  c[j] == data[j] ^ e(k, [1] + nonce + [ToByte(i / 256), ToByte(i % 256)])[j % 16])
            && (forall j :: 0 <= j < 12 ==>
                  c[|data| + j] == Chain(e, k, AuthBlocks(nonce, aad, data))[j] ^ e(k, [1] + nonce + [0, 0])[j])
  {
    hide ToByte, Chain, AuthBlocks, Val, Seal, CounterBlock;
    var c := Seal(e, k, nonce, aad, data);
    SealedTag(e, k, nonce, aad, data);
    FirstCounter(nonce);
    forall j | 0 <= j < |data|
      ensures c[j] == data[j] ^ e(k, [1 as byte] + nonce
                                     + [ToByte((j / 16 + 1) / 256), ToByte((j / 16 + 1) % 256)])[j % 16]
    {
      SealedOctet(e, k, nonce, aad, data, j);
    }
    forall j | 0 <= j < 12
      ensures c[|data| + j] == Chain(e, k, AuthBlocks(nonce, aad, data))[j] ^ e(k, [1 as byte] + nonce + [0, 0])[j]
    {
      assert c[|data| + j] == c[|data|..][j];
    }
  }

  lemma CounterOctets(nonce: Nonce, i: nat)
    requires i < TWO_16
    ensures CounterBlock(nonce, i) == [1 as byte] + nonce + [ToByte(i / 256), ToByte(i % 256)]
  {
    hide ToByte, BeBytes, Val;
    TwoOctets(i);
  }

  lemma FirstCounter(nonce: Nonce)
    ensures CounterBlock(nonce, 0) == [1 as byte] + nonce + [0, 0]
  {
    hide ToByte, Val, CounterBlock;
    CounterOctets(nonce, 0);
    ZeroAndTwo();
    ValInjective(ToByte(0), 0);
  }

  lemma SealedOctet(e: Cipher, k: Block, nonce: Nonce, aad: Aad, data: bytes, j: nat)
    requires j < |data| < TWO_16
    ensures var i := j / 16 + 1;
            Seal(e, k, nonce, aad, data)[j]
            == data[j] ^ e(k, [1 as byte] + nonce + [ToByte(i / 256), ToByte(i % 256)])[j % 16]
  {
    hide ToByte, Tag, CounterBlock, Val;
    CounterOctets(nonce, j / 16 + 1);
    assert Seal(e, k, nonce, aad, data)[j] == data[j] ^ KeyStream(e, k, nonce, |data|)[j];
  }

  /** The tag of a sealed message: the first 12 octets of the chain over the message in plain, under
      the encrypted counter block 0. */
  lemma SealedTag(e: Cipher, k: Block, nonce: Nonce, aad: Aad, data: bytes)
    requires |data| < TWO_16
    ensures Seal(e, k, nonce, aad, data)[|data|..]
         == Xor(Chain(e, k, AuthBlocks(nonce, aad, data))[..TAG], e(k, CounterBlock(nonce, 0)))
  {
    hide Chain, AuthBlocks, CounterBlock, KeyStream;
  }

  datatype Opened = Opened(data: bytes) | Rejected

  /** Section 2.5: recover the message, recompute the tag, compare. */
  function Open(e: Cipher, k: Block, nonce: Nonce, aad: Aad, c: bytes): (o: Opened)
    requires TAG <= |c| < TWO_16
  {
    var n := |c| - TAG;
    var data := Xor(c[..n], KeyStream(e, k, nonce, n));
    if Tag(e, k, nonce, aad, data) == c[n..] then Opened(data) else Rejected
  }

  /** A ciphertext that opens carries the tag of the message it opens to. */
  lemma OpenedTag(e: Cipher, k: Block, nonce: Nonce, aad: Aad, c: bytes)
    requires TAG <= |c| < TWO_16 && Open(e, k, nonce, aad, c).Opened?
    ensures var data := Open(e, k, nonce, aad, c).data;
            |data| == |c| - 12
            && c[|c| - 12..] == Xor(Chain(e, k, AuthBlocks(nonce, aad, data))[..12], e(k, CounterBlock(nonce, 0)))
  {
    hide Chain, AuthBlocks, CounterBlock, KeyStream;
  }

  lemma XorInvolutive(a: bytes, b: bytes)
    requires |a| <= |b|
    ensures Xor(Xor(a, b), b) == a
  {
    forall i | 0 <= i < |a|
      ensures Xor(Xor(a, b), b)[i] == a[i]
    {
      assert a[i] ^ b[i] ^ b[i] == a[i];
    }
  }

  /** A ciphertext opens to exactly the message that seals to it, and to nothing else. */
  lemma OpenIffSealed(e: Cipher, k: Block, nonce: Nonce, aad: Aad, c: bytes, data: bytes)
    requires TAG <= |c| < TWO_16 && |data| < TWO_16
    ensures Open(e, k, nonce, aad, c) == Opened(data) <==> c == Seal(e, k, nonce, aad, data)
  {
    hide Tag, KeyStream;
    var n := |c| - TAG;
    var stream := KeyStream(e, k, nonce, n);
    XorInvolutive(c[..n], stream);
    if |data| == n {
      XorInvolutive(data, stream);
    }
    assert c == c[..n] + c[n..];
  }
}
