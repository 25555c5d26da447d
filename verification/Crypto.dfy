/** src/crypto.c: the two modes as the firmware runs them, in place over small buffers, with an
    AES block call that may fail at any point. */
module Crypto {
  import opened Bytes
  import opened BlockModes

  /** The od_aes_block boundary: a fixed total cipher behind a call that can fail. */
  class Aes {
    const cipher: Cipher
    /** How many block calls have failed so far. */
    ghost var failures: nat

    constructor (cipher: Cipher)
      ensures this.cipher == cipher && failures == 0
    {
      this.cipher := cipher;
      failures := 0;
    }

    /** Source and destination may be the same buffer; nothing is promised about the
        destination of a failed call. */
    method Encrypt(key: Block, src: array<byte>, dst: array<byte>) returns (ok: bool)
      requires src.Length == 16 && dst.Length == 16
      modifies this`failures, dst
      ensures ok ==> dst[..] == cipher(key, old(src[..])) && failures == old(failures)
      ensures !ok ==> failures == old(failures) + 1
    {
      ok := *;
      if !ok {
        failures := failures + 1;
        return;
      }
      var r := cipher(key, src[..]);
      for i := 0 to 16
        invariant dst[..i] == r[..i]
        modifies dst
      {
        dst[i] := r[i];
      }
      assert dst[..] == dst[..16] == r[..16] == r;
    }
  }

  /** a with the bytes of s XORed into its front. */
  function Mixed(a: bytes, s: bytes): (r: bytes)
    requires |s| <= |a|
    ensures |r| == |a|
    ensures forall i :: 0 <= i < |a| ==> r[i] == if i < |s| then s[i] ^ a[i] else a[i]
  {
    Xor(s, a) + a[|s|..]
  }

  method XorInto(dst: array<byte>, s: bytes)
    requires |s| <= dst.Length
    modifies dst
    ensures dst[..] == Mixed(old(dst[..]), s)
  {
    ghost var was := dst[..];
    for i := 0 to |s|
      invariant forall j :: 0 <= j < i ==> dst[j] == s[j] ^ was[j]
      invariant forall j :: i <= j < dst.Length ==> dst[j] == was[j]
    {
      dst[i] := s[i] ^ dst[i];
    }
    assert dst[..] == Mixed(was, s);
  }

  method DoubleBlock(b: array<byte>)
    requires b.Length == 16
    modifies b
    ensures b[..] == Double(old(b[..]))
  {
    ghost var was := b[..];
    var top := b[0];
    for i := 0 to 15
      invariant forall j :: 0 <= j < i ==> b[j] == ShiftIn(was[j], was[j + 1])
      invariant forall j :: i <= j < 16 ==> b[j] == was[j]
    {
      b[i] := ShiftIn(b[i], b[i + 1]);
    }
    b[15] := Reduce(b[15], top);
    assert b[..] == Double(was);
  }

  method Wipe(a: array<byte>, from: nat, n: nat)
    requires from + n <= a.Length
    modifies a
    ensures a[..] == old(a[..from]) + Zeros(n) + old(a[from + n..])
  {
    ghost var was := a[..];
    for i := 0 to n
      invariant forall j :: 0 <= j < a.Length ==> a[j] == if from <= j < from + i then 0 else was[j]
    {
      a[from + i] := 0;
    }
    assert a[..] == was[..from] + Zeros(n) + was[from + n..];
  }

  lemma MixWholeBlock(a: Block, s: bytes)
    requires |s| <= 16
    ensures Mixed(a, s) == XorBlocks(a, PadBlock(s))
  {
    forall i | 0 <= i < 16
      ensures Mixed(a, s)[i] == XorBlocks(a, PadBlock(s))[i]
    {
      if i < |s| {
        assert s[i] ^ a[i] == a[i] ^ s[i];
      } else {
        assert a[i] ^ 0 == a[i];
      }
    }
  }

  lemma MixShortByte(a: byte, m: byte)
    ensures m ^ a == a ^ m && a ^ 0 == a
  {
  }

  /** Marking the padding bit and mixing in the short block equals one XOR with the padded block. */
  lemma MixShortBlock(a: Block, last: bytes)
    requires |last| < 16
    ensures Mixed(a[|last| := a[|last|] ^ 0x80], last) == XorBlocks(a, last + [0x80] + Zeros(15 - |last|))
  {
    hide Mixed, Xor, XorBlocks;
    var n := |last|;
    var padded: Block := last + [0x80] + Zeros(15 - n);
    var l, r := Mixed(a[n := a[n] ^ 0x80], last), XorBlocks(a, padded);
    forall i | 0 <= i < 16
      ensures l[i] == r[i]
    {
      MixShortByte(a[i], padded[i]);
    }
  }

  lemma MixSubkey(a: Block, m: Block, sub: Block)
    ensures Mixed(XorBlocks(a, m), sub) == XorBlocks(a, XorBlocks(m, sub))
  {
    hide Mixed, Xor, XorBlocks;
    forall i | 0 <= i < 16
      ensures Mixed(XorBlocks(a, m), sub)[i] == XorBlocks(a, XorBlocks(m, sub))[i]
    {
      assert sub[i] ^ (a[i] ^ m[i]) == a[i] ^ (m[i] ^ sub[i]);
    }
  }

  /** One step of the CBC chain in place: XOR up to a block of data in, then encrypt. */
  method Absorb(aes: Aes, key: Block, block: array<byte>, s: bytes) returns (ok: bool)
    requires block.Length == 16 && |s| <= 16
    modifies aes`failures, block
    ensures ok ==> aes.failures == old(aes.failures)
                   && block[..] == aes.cipher(key, XorBlocks(old(block[..]), PadBlock(s)))
    ensures !ok ==> aes.failures == old(aes.failures) + 1
  {
    hide Mixed, XorBlocks, PadBlock;
    ghost var was := block[..];
    XorInto(block, s);
    MixWholeBlock(was, s);
    ok := aes.Encrypt(key, block, block);
  }

  lemma ChainStart(e: Cipher, k: Block)
    ensures Padded([]) == [] && Chain(e, k, []) == ZERO_BLOCK
  {
  }

  lemma LastStartIs(n: nat, pos: nat)
    requires pos % 16 == 0 && pos <= n <= pos + 16 && (pos == 0 || pos < n)
    ensures pos == LastStart(n)
  {
  }

  /** However the last block is padded, mixing it in place equals one XOR with M_last. */
  lemma CmacTail(e: Cipher, k: Block, last: bytes, chain: Block, block: Block, sub: Block)
    requires |last| <= 16
    requires if |last| < 16 then block == chain[|last| := chain[|last|] ^ 0x80] && sub == Subkey2(e, k)
             else block == chain && sub == Subkey1(e, k)
    ensures Mixed(Mixed(block, last), sub) == XorBlocks(chain, LastBlock(e, k, last))
  {
    hide Mixed, XorBlocks, Double;
    if |last| < 16 {
      MixShortBlock(chain, last);
      MixSubkey(chain, last + [0x80] + Zeros(15 - |last|), sub);
    } else {
      MixWholeBlock(chain, last);
      assert PadBlock(last) == last;
      MixSubkey(chain, last, sub);
    }
  }

  /** The loop of od_cmac: the chain over every block but the last. */
  method CmacChain(aes: Aes, key: Block, input: bytes, block: array<byte>) returns (ok: bool, pos: nat)
    requires block.Length == 16 && block[..] == ZERO_BLOCK
    modifies aes`failures, block
    ensures ok <==> aes.failures == old(aes.failures)
    ensures ok ==> pos == LastStart(|input|) && pos <= |input| <= pos + 16
                   && block[..] == Chain(aes.cipher, key, Padded(input[..pos]))
  {
    hide XorBlocks, Padded, PadBlock, Chain, LastStart;
    ok, pos := true, 0;
    ChainStart(aes.cipher, key);
    while |input| - pos > 16
      invariant pos % 16 == 0 && pos <= |input| && (pos == 0 || pos < |input|)
      invariant block[..] == Chain(aes.cipher, key, Padded(input[..pos]))
      invariant aes.failures == old(aes.failures)
    {
      ok := Absorb(aes, key, block, input[pos..pos + 16]);
      if !ok {
        return;
      }
      PaddedStep(input, pos);
      ChainSnoc(aes.cipher, key, Padded(input[..pos]), PadBlock(input[pos..pos + 16]));
      pos := pos + 16;
    }
    LastStartIs(|input|, pos);
  }

  /** The end of od_cmac: pad a short block, choose its subkey, mix both in, encrypt. */
  method CmacFinish(aes: Aes, key: Block, last: bytes, block: array<byte>, subkey: array<byte>, out: array<byte>)
    returns (ok: bool)
    requires |last| <= 16 && block.Length == 16 && subkey.Length == 16 && out.Length == 16
    requires block != subkey && subkey[..] == Subkey1(aes.cipher, key)
    modifies aes`failures, block, subkey, out
    ensures ok <==> aes.failures == old(aes.failures)
    ensures ok ==> out[..] == aes.cipher(key, XorBlocks(old(block[..]), LastBlock(aes.cipher, key, last)))
  {
    hide Mixed, XorBlocks, Double, Subkey1, LastBlock;
    ghost var chain := block[..];
    if |last| < 16 {
      DoubleBlock(subkey);
      block[|last|] := block[|last|] ^ 0x80;
    }
    CmacTail(aes.cipher, key, last, chain, block[..], subkey[..]);
    XorInto(block, last);
    XorInto(block, subkey[..]);
    ok := aes.Encrypt(key, block, out);
  }

  /** od_cmac: one pass over the message equals RFC 4493, and only a failed block call stops it. */
  method OdCmac(aes: Aes, key: Block, input: bytes, out: array<byte>) returns (ok: bool)
    requires out.Length == 16
    modifies aes`failures, out
    ensures ok <==> aes.failures == old(aes.failures)
    ensures ok ==> out[..] == Cmac(aes.cipher, key, input)
  {
    hide XorBlocks, Padded, Chain, Double, LastStart, LastBlock;
    var subkey, block := new byte[16](_ => 0), new byte[16](_ => 0);
    assert subkey[..] == ZERO_BLOCK && block[..] == ZERO_BLOCK;
    ok := aes.Encrypt(key, subkey, subkey);
    if ok {
      DoubleBlock(subkey);
      var pos;
      ok, pos := CmacChain(aes, key, input, block);
      if ok {
        ok := CmacFinish(aes, key, input[pos..], block, subkey, out);
      }
    }
    Wipe(subkey, 0, 16);
    Wipe(block, 0, 16);
  }

  /** The CBC chain over B_0 and the block that carries the associated data. */
  method CcmStart(aes: Aes, key: Block, nonce: Nonce, aad: Aad, data: bytes, header: Block, tag: array<byte>)
    returns (ok: bool)
    requires |data| <= 214 && tag.Length == 16 && header == AuthBlocks(nonce, aad, data)[0]
    modifies aes`failures, tag
    ensures ok <==> aes.failures == old(aes.failures)
    ensures ok ==> tag[..] == Chain(aes.cipher, key, AuthBlocks(nonce, aad, data)[..2])
  {
    hide Mixed, Xor, XorBlocks, Padded, Chain, AuthBlocks;
    ghost var e, ms := aes.cipher, AuthBlocks(nonce, aad, data);
    FirstBlocks(nonce, aad, data);
    var block := new byte[16](i requires 0 <= i < 16 => header[i]);
    assert block[..] == header;
    ok := aes.Encrypt(key, block, tag);
    if !ok {
      return;
    }
    ghost var x := tag[..];
    tag[1], tag[2], tag[3] := tag[1] ^ 2, tag[2] ^ aad[0], tag[3] ^ aad[1];
    assert tag[..] == [x[0], x[1] ^ 2, x[2] ^ aad[0], x[3] ^ aad[1]] + x[4..];
    AadMix(x, aad);
    ok := aes.Encrypt(key, tag, tag);
    ChainStart(e, key);
    ChainTwo(e, key, header, ms[1]);
    assert ms[..2] == [header, ms[1]];
  }

  lemma ChainTwo(e: Cipher, k: Block, b0: Block, b1: Block)
    ensures Chain(e, k, [b0, b1]) == e(k, XorBlocks(e(k, b0), b1))
  {
    hide XorBlocks;
    MixZero(b0);
    ChainSnoc(e, k, [], b0);
    ChainSnoc(e, k, [b0], b1);
    assert [] + [b0] == [b0] && [b0] + [b1] == [b0, b1];
  }

  /** The CBC chain carried on over the payload. */
  method AbsorbAll(aes: Aes, key: Block, data: bytes, tag: array<byte>, ghost before: seq<Block>) returns (ok: bool)
    requires tag.Length == 16 && tag[..] == Chain(aes.cipher, key, before)
    modifies aes`failures, tag
    ensures ok <==> aes.failures == old(aes.failures)
    ensures ok ==> tag[..] == Chain(aes.cipher, key, before + Padded(data))
  {
    hide XorBlocks, Padded, PadBlock, Chain;
    ok := true;
    var pos := 0;
    ChainStart(aes.cipher, key);
    assert data[..0] == [] && before + [] == before;
    while pos < |data|
      invariant 0 <= pos && (pos % 16 == 0 || pos >= |data|)
      invariant tag[..] == Chain(aes.cipher, key, before + Padded(data[..Min(pos, |data|)]))
      invariant aes.failures == old(aes.failures)
    {
      var count := if |data| - pos < 16 then |data| - pos else 16;
      ok := Absorb(aes, key, tag, data[pos..pos + count]);
      if !ok {
        return;
      }
      PaddedStep(data, pos);
      ChainSnoc(aes.cipher, key, before + Padded(data[..pos]), PadBlock(data[pos..pos + count]));
      AppendAssoc(before, Padded(data[..pos]), [PadBlock(data[pos..pos + count])]);
      pos := pos + 16;
    }
    assert data[..Min(pos, |data|)] == data;
  }

  /** ccm_tag: the encrypted authentication value of sections 2.2 and 2.3 of RFC 3610. */
  method CcmTag(aes: Aes, key: Block, nonce: Nonce, aad: Aad, buf: array<byte>, off: nat, len: nat, tag: array<byte>)
    returns (ok: bool)
    requires off + len <= buf.Length && len <= 214 && tag.Length == 16 && tag != buf
    modifies aes`failures, tag
    ensures ok <==> aes.failures == old(aes.failures)
    ensures ok ==> tag[..TAG] == Tag(aes.cipher, key, nonce, aad, buf[off..off + len])
  {
    hide Xor, XorBlocks, Padded, PadBlock, Chain, AuthBlocks, CounterBlock;
    var data := buf[off..off + len];
    ghost var ms := AuthBlocks(nonce, aad, data);
    FirstBlocks(nonce, aad, data);
    var header := [0x69 as byte] + nonce + [ToByte(len / 256), ToByte(len % 256)];
    ok := CcmStart(aes, key, nonce, aad, data, header, tag);
    if ok {
      ok := AbsorbAll(aes, key, data, tag, ms[..2]);
      if ok {
        assert ms[..2] + Padded(data) == ms;
        ok := MaskTag(aes, key, nonce, tag);
      }
    }
  }

  /** U := T XOR the first bytes of S_0. */
  method MaskTag(aes: Aes, key: Block, nonce: Nonce, tag: array<byte>) returns (ok: bool)
    requires tag.Length == 16
    modifies aes`failures, tag
    ensures ok ==> aes.failures == old(aes.failures)
                   && tag[..TAG] == Xor(old(tag[..TAG]), aes.cipher(key, CounterBlock(nonce, 0)))
    ensures !ok ==> aes.failures == old(aes.failures) + 1
  {
    hide Mixed, Xor, CounterBlock;
    ghost var mac := tag[..];
    var input := [1 as byte] + nonce + [0, 0];
    var block := new byte[16](i requires 0 <= i < 16 => input[i]);
    CounterZero(nonce);
    assert block[..] == input == CounterBlock(nonce, 0);
    ok := aes.Encrypt(key, block, block);
    if ok {
      TagMix(mac, block[..]);
      XorInto(tag, block[..TAG]);
    }
    Wipe(block, 0, 16);
  }

  lemma MixZero(s: Block)
    ensures Mixed(ZERO_BLOCK, s) == s && XorBlocks(ZERO_BLOCK, s) == s
  {
    assert Mixed(ZERO_BLOCK, s) == s;
    assert XorBlocks(ZERO_BLOCK, s) == s;
  }

  /** The 0x69 flags octet and the two-octet length and AAD length of the fixed profile. */
  lemma FirstBlocks(nonce: Nonce, aad: Aad, data: bytes)
    requires |data| <= 214
    ensures var ms := AuthBlocks(nonce, aad, data);
            && |ms| >= 2
            && ms[0] == [0x69 as byte] + nonce + [ToByte(|data| / 256), ToByte(|data| % 256)]
            && ms[1] == [0, 2] + aad + Zeros(12)
            && ms == [ms[0], ms[1]] + Padded(data)
  {
    assert Val(0x69) == 105 && Val(2) == 2 && Val(0) == 0;
    ValInjective(AuthFlags(true, TAG, 2), 0x69);
    ValInjective(ToByte(2), 2);
    ValInjective(ToByte(0), 0);
    TwoBytes(2);
    TwoBytes(|data|);
  }

  lemma TwoBytes(n: nat)
    requires n < TWO_16
    ensures BeBytes(n, 2) == [ToByte(n / 256), ToByte(n % 256)]
  {
    hide ToByte, Val;
    assert BeBytes(n / 256, 1) == [] + [ToByte(n / 256)];
  }

  lemma AppendAssoc<T>(a: seq<T>, b: seq<T>, c: seq<T>)
    ensures (a + b) + c == a + (b + c)
  {
  }

  lemma CounterBytes(nonce: Nonce, n: nat)
    requires n < TWO_16
    ensures CounterBlock(nonce, n) == [1 as byte] + nonce + [ToByte(n / 256), ToByte(n % 256)]
  {
    TwoBytes(n);
  }

  lemma CounterZero(nonce: Nonce)
    ensures CounterBlock(nonce, 0) == [1 as byte] + nonce + [0, 0]
  {
    assert Val(0) == 0;
    TwoBytes(0);
    ValInjective(ToByte(0), 0);
  }

  lemma AadMix(x: Block, aad: Aad)
    ensures [x[0], x[1] ^ 2, x[2] ^ aad[0], x[3] ^ aad[1]] + x[4..] == XorBlocks(x, [0, 2] + aad + Zeros(12))
  {
  }

  lemma TagMix(mac: Block, s0: Block)
    ensures Mixed(mac, s0[..TAG])[..TAG] == Xor(mac[..TAG], s0)
  {
    forall i | 0 <= i < TAG
      ensures s0[i] ^ mac[i] == mac[i] ^ s0[i]
    {
    }
  }

  method XorRegion(buf: array<byte>, at: nat, s: bytes)
    requires at + |s| <= buf.Length
    modifies buf
    ensures forall j :: 0 <= j < buf.Length ==>
      buf[j] == if at <= j < at + |s| then old(buf[j]) ^ s[j - at] else old(buf[j])
  {
    for i := 0 to |s|
      invariant forall j :: 0 <= j < buf.Length ==>
        buf[j] == if at <= j < at + i then old(buf[j]) ^ s[j - at] else old(buf[j])
    {
      buf[at + i] := buf[at + i] ^ s[i];
    }
  }

  method CopyInto(buf: array<byte>, at: nat, s: bytes)
    requires at + |s| <= buf.Length
    modifies buf
    ensures buf[..] == old(buf[..at]) + s + old(buf[at + |s|..])
  {
    ghost var was := buf[..];
    for i := 0 to |s|
      invariant forall j :: 0 <= j < buf.Length ==> buf[j] == if at <= j < at + i then s[j - at] else was[j]
    {
      buf[at + i] := s[i];
    }
    assert buf[..] == was[..at] + s + was[at + |s|..];
  }

  /** One counter block of ccm_xor: the next (up to) 16 payload bytes are masked. */
  method XorBlock(aes: Aes, key: Block, nonce: Nonce, buf: array<byte>, off: nat, len: nat, pos: nat) returns (ok: bool)
    requires off + len <= buf.Length && len <= 214 && pos < len && pos % 16 == 0
    modifies aes`failures, buf
    ensures !ok ==> aes.failures == old(aes.failures) + 1 && buf[..] == old(buf[..])
    ensures ok ==> aes.failures == old(aes.failures)
    ensures ok ==> forall j :: 0 <= j < buf.Length ==>
      buf[j] == if off + pos <= j < off + Min(pos + 16, len)
        then old(buf[j]) ^ KeyStream(aes.cipher, key, nonce, len)[j - off]
                else old(buf[j])
  {
    hide KeyStream, CounterBlock;
    var n := pos / 16 + 1;
    var input := [1 as byte] + nonce + [ToByte(n / 256), ToByte(n % 256)];
    var counter, stream := new byte[16](i requires 0 <= i < 16 => input[i]), new byte[16];
    CounterBytes(nonce, n);
    assert counter[..] == input;
    ok := aes.Encrypt(key, counter, stream);
    if ok {
      StreamBlock(aes.cipher, key, nonce, len, pos);
      var s := stream[..Min(16, len - pos)];
      ghost var ks := KeyStream(aes.cipher, key, nonce, len);
      assert forall j :: pos <= j < pos + |s| ==> ks[j] == s[j - pos];
      XorRegion(buf, off + pos, s);
    }
  }

  /** ccm_xor: the payload region becomes itself XORed with the key stream of section 2.3. */
  method CcmXor(aes: Aes, key: Block, nonce: Nonce, buf: array<byte>, off: nat, len: nat) returns (ok: bool)
    requires off + len <= buf.Length && len <= 214
    modifies aes`failures, buf
    ensures ok <==> aes.failures == old(aes.failures)
    ensures ok ==> buf[off..off + len] == Xor(old(buf[off..off + len]), KeyStream(aes.cipher, key, nonce, len))
    ensures buf[..off] == old(buf[..off]) && buf[off + len..] == old(buf[off + len..])
  {
    hide KeyStream;
    ghost var was := buf[..];
    ghost var ks := KeyStream(aes.cipher, key, nonce, len);
    var pos := 0;
    ok := true;
    while pos < len
      invariant pos % 16 == 0 && 0 <= pos
      invariant forall j :: 0 <= j < buf.Length ==>
        buf[j] == if off <= j < off + Min(pos, len) then was[j] ^ ks[j - off] else was[j]
      invariant aes.failures == old(aes.failures)
    {
      ok := XorBlock(aes, key, nonce, buf, off, len, pos);
      if !ok {
        return;
      }
      pos := pos + 16;
    }
  }

  lemma StreamBlock(e: Cipher, k: Block, nonce: Nonce, len: nat, pos: nat)
    requires pos % 16 == 0
    ensures forall j :: pos <= j < pos + 16 && j < len ==>
      KeyStream(e, k, nonce, len)[j] == e(k, CounterBlock(nonce, pos / 16 + 1))[j - pos]
  {
    hide CounterBlock;
    forall j | pos <= j < pos + 16 && j < len
      ensures j / 16 == pos / 16 && j % 16 == j - pos
    {
    }
  }

  /** The decrypting half of od_ccm before its final wipe. */
  method CcmOpen(aes: Aes, key: Block, nonce: Nonce, aad: Aad, buf: array<byte>, off: nat, len: nat, tag: array<byte>)
    returns (ok: bool)
    requires len <= 214 && off + len + TAG <= buf.Length && tag.Length == 16 && tag != buf
    modifies aes`failures, buf, tag
    ensures ok <==> aes.failures == old(aes.failures)
                    && Open(aes.cipher, key, nonce, aad, old(buf[off..off + len + TAG])).Opened?
    ensures ok ==> buf[off..off + len] == Open(aes.cipher, key, nonce, aad, old(buf[off..off + len + TAG])).data
    ensures buf[..off] == old(buf[..off]) && buf[off + len..] == old(buf[off + len..])
  {
    hide Xor, KeyStream, Tag;
    ghost var c := buf[off..off + len + TAG];
    assert c[..len] == buf[off..off + len] && c[len..] == buf[off + len..][..TAG];
    ok := CcmXor(aes, key, nonce, buf, off, len);
    if ok {
      assert buf[off..off + len] == Xor(c[..len], KeyStream(aes.cipher, key, nonce, len));
      ok := CcmTag(aes, key, nonce, aad, buf, off, len, tag);
      if ok {
        assert buf[off + len..off + len + TAG] == buf[off + len..][..TAG];
        ok := SameBytes(tag, buf, off + len);
      }
    }
  }

  /** The encrypting half of od_ccm before its final wipe. */
  method CcmSeal(aes: Aes, key: Block, nonce: Nonce, aad: Aad, buf: array<byte>, off: nat, len: nat, tag: array<byte>)
    returns (ok: bool)
    requires len <= 214 && off + len + TAG <= buf.Length && tag.Length == 16 && tag != buf
    modifies aes`failures, buf, tag
    ensures ok <==> aes.failures == old(aes.failures)
    ensures ok ==> buf[off..off + len + TAG] == Seal(aes.cipher, key, nonce, aad, old(buf[off..off + len]))
                   && buf[off + len + TAG..] == old(buf[off + len + TAG..])
    ensures !ok ==> buf[off + len..] == old(buf[off + len..])
    ensures buf[..off] == old(buf[..off])
  {
    hide Xor, KeyStream, Tag;
    ok := CcmTag(aes, key, nonce, aad, buf, off, len, tag);
    if ok {
      ok := CcmXor(aes, key, nonce, buf, off, len);
      if ok {
        CopyInto(buf, off + len, tag[..TAG]);
      }
    }
  }

  /** od_ccm on the len payload bytes at off, with the 12 tag bytes behind them. */
  method OdCcm(aes: Aes, key: Block, nonce: Nonce, aad: Aad, buf: array<byte>, off: nat, len: nat, decrypt: bool)
    returns (ok: bool)
    requires len <= 214 ==> off + len + TAG <= buf.Length
    modifies aes`failures, buf
    // an invalid length is rejected without touching the buffer or the cipher
    ensures len > 214 ==> !ok && buf[..] == old(buf[..]) && aes.failures == old(aes.failures)
    // encryption fails only with AES, and otherwise leaves payload and tag of RFC 3610
    ensures len <= 214 && !decrypt ==> (ok <==> aes.failures == old(aes.failures))
    ensures ok && !decrypt ==>
      buf[off..off + len + TAG] == Seal(aes.cipher, key, nonce, aad, old(buf[off..off + len]))
      && buf[off + len + TAG..] == old(buf[off + len + TAG..])
    // decryption succeeds exactly when no block call failed and the ciphertext opens
    ensures len <= 214 && decrypt ==>
      (ok <==> aes.failures == old(aes.failures)
               && Open(aes.cipher, key, nonce, aad, old(buf[off..off + len + TAG])).Opened?)
    ensures ok && decrypt ==>
      buf[off..off + len] == Open(aes.cipher, key, nonce, aad, old(buf[off..off + len + TAG])).data
    // either way the 12 bytes behind the payload are the tag of the plain payload
    ensures ok ==>
      var plain := if decrypt then buf[off..off + len] else old(buf[off..off + len]);
      buf[off + len..off + len + 12] ==
        Xor(Chain(aes.cipher, key, AuthBlocks(nonce, aad, plain))[..12], aes.cipher(key, CounterBlock(nonce, 0)))
    // a failed payload is left zeroed; bytes around payload and tag never change
    ensures len <= 214 && !ok ==> buf[off..off + len] == Zeros(len)
    ensures len <= 214 ==> buf[..off] == old(buf[..off])
    ensures len <= 214 && (decrypt || !ok) ==> buf[off + len..] == old(buf[off + len..])
  {
    hide Open, Seal, Chain, AuthBlocks, CounterBlock, Xor;
    if len > 214 {
      return false;
    }
    var tag := new byte[16];
    ghost var was := buf[..];
    if decrypt {
      ok := CcmOpen(aes, key, nonce, aad, buf, off, len, tag);
      if ok {
        OpenedTag(aes.cipher, key, nonce, aad, was[off..off + len + TAG]);
        Behind(was, off, len);
      }
    } else {
      ok := CcmSeal(aes, key, nonce, aad, buf, off, len, tag);
      if ok {
        SealedTag(aes.cipher, key, nonce, aad, was[off..off + len]);
      }
    }
    Behind(buf[..], off, len);
    if !ok {
      Wipe(buf, off, len);
    }
    Wipe(tag, 0, 16);
  }

  /** The bytes behind a payload, however they are cut out. */
  lemma Behind(s: bytes, off: nat, len: nat)
    requires off + len + TAG <= |s|
    ensures s[off..off + len + TAG][len..] == s[off + len..off + len + TAG] == s[off + len..][..TAG]
  {
  }

  /** Constant-time comparison of the computed tag with the 12 bytes behind the payload. */
  method SameBytes(tag: array<byte>, buf: array<byte>, at: nat) returns (same: bool)
    requires tag.Length == 16 && at + TAG <= buf.Length
    ensures same <==> tag[..TAG] == buf[at..at + TAG]
  {
    var diff: byte := 0;
    for i := 0 to TAG
      invariant diff == 0 <==> tag[..i] == buf[at..at + i]
    {
      DiffStep(diff, tag[i], buf[at + i]);
      assert tag[..i + 1] == tag[..i] + [tag[i]] && buf[at..at + i + 1] == buf[at..at + i] + [buf[at + i]];
      diff := diff | (tag[i] ^ buf[at + i]);
    }
    same := diff == 0;
  }

  lemma DiffStep(diff: byte, a: byte, b: byte)
    ensures diff | (a ^ b) == 0 <==> diff == 0 && a == b
  {
    if a != b {
      assert a ^ b != 0;
    }
  }
}
