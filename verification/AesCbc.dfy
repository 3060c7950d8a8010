/** AES_cbc_encrypt: cipher block chaining (section 6.2 of NIST SP 800-38A) with the code's own
    treatment of a tail shorter than a block. */
module AesCbc {
  import opened AesField
  import opened Aes
  import opened AesCipher
  import opened AesKeys
  import opened AesVector

  const BLOCK: nat := 16

  /** A block cipher under one key: its two directions. */
  datatype Keyed = Keyed(enc: Block -> Block, dec: Block -> Block) {
    ghost predicate Inverse() { forall b :: dec(enc(b)) == b }
  }

  /** AES under a key schedule. */
  function AesKeyed(w: seq<bv32>, nr: nat): Keyed
    requires Rounds(nr) && 4 * nr + 4 <= |w|
  {
    Keyed(b => EncryptBlock(w, nr, b), b => DecryptBlock(w, nr, b))
  }

  lemma AesInverse(w: seq<bv32>, nr: nat)
    requires Rounds(nr) && 4 * nr + 4 <= |w|
    ensures AesKeyed(w, nr).Inverse()
  {
    hide EncryptBlock, DecryptBlock;
    forall b: Block ensures AesKeyed(w, nr).dec(AesKeyed(w, nr).enc(b)) == b {
      DecryptUndoesEncrypt(w, nr, b);
    }
  }

  /** The first |p| bytes of iv xored with p, the others as they are: a short tail is padded with zeros. */
  function XorInto(p: seq<bv8>, iv: Block): Block
    requires |p| <= BLOCK
  {
    seq(BLOCK, i requires 0 <= i < BLOCK => if i < |p| then Add(p[i], iv[i]) else iv[i])
  }

  /** That is the exclusive or, byte by byte. */
  lemma XorIntoIs(p: seq<bv8>, iv: Block, i: nat)
    requires |p| <= BLOCK && i < BLOCK
    ensures XorInto(p, iv)[i] == if i < |p| then p[i] ^ iv[i] else iv[i]
  {
  }

  lemma AddTwice(a: bv8, b: bv8)
    ensures Add(Add(a, b), b) == a
  {
  }

  /** Xoring twice gives the data back, for a tail too. */
  lemma XorTwice(p: seq<bv8>, iv: Block)
    requires |p| <= BLOCK
    ensures XorInto(XorInto(p, iv), iv)[..|p|] == p
  {
    hide Add;
    forall i | 0 <= i < |p| ensures XorInto(XorInto(p, iv), iv)[i] == p[i] {
      AddTwice(p[i], iv[i]);
    }
  }

  /** n rounded up to whole blocks. */
  function RoundUp(n: nat): nat {
    if n == 0 then 0 else if n < BLOCK then BLOCK else BLOCK + RoundUp(n - BLOCK)
  }

  /* ---- what the two directions compute ---- */

  /** Ciphertext of p, always whole blocks. */
  function CbcEnc(k: Keyed, iv: Block, p: seq<bv8>): (c: seq<bv8>)
    ensures |c| == RoundUp(|p|)
    decreases |p|
  {
    if p == [] then []
    else if |p| < BLOCK then k.enc(XorInto(p, iv))
    else
      var c := k.enc(XorInto(p[..BLOCK], iv));
      c + CbcEnc(k, c, p[BLOCK..])
  }

  /** ivec after encrypting p. */
  function CbcEncIv(k: Keyed, iv: Block, p: seq<bv8>): Block
    decreases |p|
  {
    if p == [] then iv
    else if |p| < BLOCK then k.enc(XorInto(p, iv))
    else CbcEncIv(k, k.enc(XorInto(p[..BLOCK], iv)), p[BLOCK..])
  }

  /** Plaintext of the first len bytes; a short tail reads its whole ciphertext block. */
  function CbcDec(k: Keyed, iv: Block, c: seq<bv8>, len: nat): (p: seq<bv8>)
    requires RoundUp(len) <= |c|
    ensures |p| == len
    decreases len
  {
    if len == 0 then []
    else if len < BLOCK then XorInto(k.dec(c[..BLOCK]), iv)[..len]
    else XorInto(k.dec(c[..BLOCK]), iv) + CbcDec(k, c[..BLOCK], c[BLOCK..], len - BLOCK)
  }

  /** ivec after decrypting; after a short tail it holds the decrypted block, not the ciphertext. */
  function CbcDecIv(k: Keyed, iv: Block, c: seq<bv8>, len: nat): Block
    requires RoundUp(len) <= |c|
    decreases len
  {
    if len == 0 then iv
    else if len < BLOCK then k.dec(c[..BLOCK])
    else CbcDecIv(k, c[..BLOCK], c[BLOCK..], len - BLOCK)
  }

  /* ---- laws ---- */

  /** Decryption undoes encryption for every length. */
  lemma {:induction false} CbcRoundTrip(k: Keyed, iv: Block, p: seq<bv8>)
    requires k.Inverse()
    ensures CbcDec(k, iv, CbcEnc(k, iv, p), |p|) == p
    decreases |p|
  {
    hide XorInto;
    if 0 < |p| < BLOCK {
      var x := XorInto(p, iv);
      var c := k.enc(x);
      assert c[..BLOCK] == c;
      XorTwice(p, iv);
    } else if p != [] {
      var x := XorInto(p[..BLOCK], iv);
      var c: seq<bv8>, rest := k.enc(x), CbcEnc(k, k.enc(x), p[BLOCK..]);
      assert (c + rest)[..BLOCK] == c && (c + rest)[BLOCK..] == rest;
      XorTwice(p[..BLOCK], iv);
      CbcRoundTrip(k, c, p[BLOCK..]);
      assert p[..BLOCK] + p[BLOCK..] == p;
    }
  }

  // ---- The definition of section 6.2 of NIST SP 800-38A, block by block ----

  /** What is chained into block j: the initial vector, or the ciphertext block before. */
  function Before(iv: Block, c: seq<bv8>, j: nat): Block
    requires BLOCK * j <= |c|
  {
    if j == 0 then iv else c[BLOCK * j - BLOCK..BLOCK * j]
  }

  /** Block j of p xored with prev; past the end of p, prev alone. */
  function ChainIn(p: seq<bv8>, prev: Block, j: nat): Block {
    seq(BLOCK, n requires 0 <= n < BLOCK => if BLOCK * j + n < |p| then p[BLOCK * j + n] ^ prev[n] else prev[n])
  }

  /** c is p encrypted block by block, each block chained to the ciphertext before it. */
  ghost predicate EncChained(k: Keyed, iv: Block, p: seq<bv8>, c: seq<bv8>) {
    && |c| == RoundUp(|p|)
    && forall j :: 0 <= j && BLOCK * j + BLOCK <= |c| ==>
         c[BLOCK * j..BLOCK * j + BLOCK] == k.enc(ChainIn(p, Before(iv, c, j), j))
  }

  /** p is the first len bytes of c decrypted block by block, each xored with the ciphertext block before it. */
  ghost predicate DecChained(k: Keyed, iv: Block, c: seq<bv8>, len: nat, p: seq<bv8>) {
    && |p| == len && RoundUp(len) <= |c|
    && forall j, n :: 0 <= j && 0 <= n < BLOCK && BLOCK * j + n < len && BLOCK * j + BLOCK <= |c| ==>
         p[BLOCK * j + n] == k.dec(c[BLOCK * j..BLOCK * j + BLOCK])[n] ^ Before(iv, c, j)[n]
  }

  lemma ChainInFirst(p: seq<bv8>, prev: Block)
    ensures ChainIn(p, prev, 0) == XorInto(if |p| < BLOCK then p else p[..BLOCK], prev)
  {
    var q := if |p| < BLOCK then p else p[..BLOCK];
    forall n | 0 <= n < BLOCK ensures ChainIn(p, prev, 0)[n] == XorInto(q, prev)[n] {
      XorIntoIs(q, prev, n);
    }
  }

  lemma ChainInRest(p: seq<bv8>, prev: Block, j: nat)
    requires |p| >= BLOCK
    ensures ChainIn(p, prev, j + 1) == ChainIn(p[BLOCK..], prev, j)
  {
    forall n | 0 <= n < BLOCK ensures ChainIn(p, prev, j + 1)[n] == ChainIn(p[BLOCK..], prev, j)[n] {
      assert BLOCK * (j + 1) + n == BLOCK + (BLOCK * j + n);
    }
  }

  /** CbcEnc computes just that, for every length. */
  lemma {:induction false} EncIsChained(k: Keyed, iv: Block, p: seq<bv8>)
    ensures EncChained(k, iv, p, CbcEnc(k, iv, p))
    decreases |p|
  {
    hide XorInto, ChainIn;
    var c := CbcEnc(k, iv, p);
    if 0 < |p| {
      var first: seq<bv8> := k.enc(XorInto(if |p| < BLOCK then p else p[..BLOCK], iv));
      ChainInFirst(p, iv);
      var rest := if |p| < BLOCK then [] else p[BLOCK..];
      var c1 := if |p| < BLOCK then [] else CbcEnc(k, first, rest);
      if |p| >= BLOCK {
        EncIsChained(k, first, rest);
      }
      assert c == first + c1;
      forall j | 0 <= j && BLOCK * j + BLOCK <= |c|
        ensures c[BLOCK * j..BLOCK * j + BLOCK] == k.enc(ChainIn(p, Before(iv, c, j), j))
      {
        if j > 0 {
          ChainInRest(p, Before(iv, c, j), j - 1);
          BlockOfRest(first, c1, j, iv);
        }
      }
    }
  }

  /** Blocks of first + rest are blocks of rest, one further on. */
  lemma BlockOfRest(first: Block, rest: seq<bv8>, j: nat, iv: Block)
    requires 0 < j && BLOCK * j + BLOCK <= BLOCK + |rest|
    ensures var c := first + rest;
            && c[BLOCK * j..BLOCK * j + BLOCK] == rest[BLOCK * (j - 1)..BLOCK * (j - 1) + BLOCK]
            && Before(iv, c, j) == Before(first, rest, j - 1)
  {
    var c := first + rest;
    assert BLOCK * j == BLOCK * (j - 1) + BLOCK;
    assert c[BLOCK * j..BLOCK * j + BLOCK] == rest[BLOCK * (j - 1)..BLOCK * (j - 1) + BLOCK];
    assert Before(iv, c, j) == Before(first, rest, j - 1);
  }

  /** One step of CbcDec. */
  lemma DecUnfolds(k: Keyed, iv: Block, c: seq<bv8>, len: nat)
    requires RoundUp(len) <= |c| && len > 0
    ensures |c| >= BLOCK
    ensures len < BLOCK ==> CbcDec(k, iv, c, len) == XorInto(k.dec(c[..BLOCK]), iv)[..len]
    ensures len >= BLOCK ==> RoundUp(len - BLOCK) <= |c[BLOCK..]|
    ensures len >= BLOCK ==>
            CbcDec(k, iv, c, len) == XorInto(k.dec(c[..BLOCK]), iv) + CbcDec(k, c[..BLOCK], c[BLOCK..], len - BLOCK)
  {
    hide XorInto;
  }

  lemma {:induction false} DecByte(k: Keyed, iv: Block, c: seq<bv8>, len: nat, j: nat, n: nat)
    requires RoundUp(len) <= |c| && n < BLOCK && BLOCK * j + n < len && BLOCK * j + BLOCK <= |c|
    ensures CbcDec(k, iv, c, len)[BLOCK * j + n] == k.dec(c[BLOCK * j..BLOCK * j + BLOCK])[n] ^ Before(iv, c, j)[n]
    decreases j
  {
    hide XorInto, CbcDec, Before, RoundUp;
    DecUnfolds(k, iv, c, len);
    var first, rest := c[..BLOCK], c[BLOCK..];
    if j == 0 {
      assert c[0..BLOCK] == first;
      XorIntoIs(k.dec(first), iv, n);
      BeforeFirst(iv, c);
    } else {
      assert BLOCK * j + n == BLOCK + (BLOCK * (j - 1) + n);
      DecByte(k, first, rest, len - BLOCK, j - 1, n);
      assert c == first + rest;
      BlockOfRest(first, rest, j, iv);
    }
  }

  lemma BeforeFirst(iv: Block, c: seq<bv8>)
    ensures Before(iv, c, 0) == iv
  {
  }

  /** CbcDec computes just that. */
  lemma DecIsChained(k: Keyed, iv: Block, c: seq<bv8>, len: nat)
    requires RoundUp(len) <= |c|
    ensures DecChained(k, iv, c, len, CbcDec(k, iv, c, len))
  {
    hide CbcDec, Before;
    forall j, n | 0 <= j && 0 <= n < BLOCK && BLOCK * j + n < len && BLOCK * j + BLOCK <= |c|
      ensures CbcDec(k, iv, c, len)[BLOCK * j + n] == k.dec(c[BLOCK * j..BLOCK * j + BLOCK])[n] ^ Before(iv, c, j)[n]
    {
      DecByte(k, iv, c, len, j, n);
    }
  }

  /** ivec after encrypting is the last ciphertext block. */
  lemma {:induction false} EncIvIsLast(k: Keyed, iv: Block, p: seq<bv8>)
    requires p != []
    ensures var c := CbcEnc(k, iv, p); |c| >= BLOCK && CbcEncIv(k, iv, p) == c[|c| - BLOCK..]
    decreases |p|
  {
    hide XorInto;
    if |p| > BLOCK {
      var first: seq<bv8> := k.enc(XorInto(p[..BLOCK], iv));
      var c := CbcEnc(k, first, p[BLOCK..]);
      EncIvIsLast(k, first, p[BLOCK..]);
      assert (first + c)[|first + c| - BLOCK..] == c[|c| - BLOCK..];
    } else {
      OneBlock(k, iv, p);
    }
  }

  /** After decrypting whole blocks it is the last ciphertext block; after a tail that block decrypted. */
  lemma {:induction false} DecIvIsLast(k: Keyed, iv: Block, c: seq<bv8>, len: nat)
    requires RoundUp(len) <= |c| && len > 0
    ensures var n := RoundUp(len);
            BLOCK <= n && CbcDecIv(k, iv, c, len) ==
            if len % BLOCK == 0 then c[n - BLOCK..n] else k.dec(c[n - BLOCK..n])
    decreases len
  {
    hide CbcDecIv, RoundUp;
    DecIvUnfolds(k, iv, c, len);
    if len > BLOCK {
      DecIvIsLast(k, c[..BLOCK], c[BLOCK..], len - BLOCK);
      var n := RoundUp(len - BLOCK);
      assert c[BLOCK..][n - BLOCK..n] == c[n..n + BLOCK];
      assert len % BLOCK == (len - BLOCK) % BLOCK;
    } else {
      assert c[0..BLOCK] == c[..BLOCK];
    }
  }

  lemma DecIvUnfolds(k: Keyed, iv: Block, c: seq<bv8>, len: nat)
    requires RoundUp(len) <= |c| && len > 0
    ensures |c| >= BLOCK && RoundUp(len) == if len <= BLOCK then BLOCK else BLOCK + RoundUp(len - BLOCK)
    ensures len <= BLOCK ==> CbcDecIv(k, iv, c, len) == if len < BLOCK then k.dec(c[..BLOCK]) else c[..BLOCK]
    ensures len > BLOCK ==> CbcDecIv(k, iv, c, len) == CbcDecIv(k, c[..BLOCK], c[BLOCK..], len - BLOCK)
  {
  }

  /** The last block that is encrypted when p has a tail: the tail chained to the block before it, padded. */
  function TailBlock(k: Keyed, iv: Block, p: seq<bv8>): Block
    requires |p| % BLOCK != 0
    decreases |p|
  {
    if |p| < BLOCK then XorInto(p, iv) else TailBlock(k, k.enc(XorInto(p[..BLOCK], iv)), p[BLOCK..])
  }

  lemma {:induction false} EncIvOfTail(k: Keyed, iv: Block, p: seq<bv8>)
    requires |p| % BLOCK != 0
    ensures CbcEncIv(k, iv, p) == k.enc(TailBlock(k, iv, p))
    decreases |p|
  {
    hide XorInto;
    if |p| >= BLOCK {
      EncIvOfTail(k, k.enc(XorInto(p[..BLOCK], iv)), p[BLOCK..]);
    }
  }

  /** The two directions leave the same ivec exactly when the length is a whole number of blocks, or the cipher
      leaves the padded last block alone. */
  lemma FinalIvAgrees(k: Keyed, iv: Block, p: seq<bv8>)
    requires k.Inverse()
    ensures CbcDecIv(k, iv, CbcEnc(k, iv, p), |p|) == CbcEncIv(k, iv, p) <==>
            |p| % BLOCK == 0 || k.enc(TailBlock(k, iv, p)) == TailBlock(k, iv, p)
  {
    hide CbcEnc, CbcDecIv, CbcEncIv, TailBlock;
    FinalIvs(k, iv, p);
    if |p| % BLOCK != 0 {
      EncIvOfTail(k, iv, p);
      assert k.dec(k.enc(TailBlock(k, iv, p))) == TailBlock(k, iv, p);
    }
  }

  /** A call for which they differ: one short tail under the example key of FIPS 197. */
  lemma ShortTailIvsDiffer(w: seq<bv32>, iv: Block, p: seq<bv8>)
    requires w == KeySchedule(VectorKey(), 4, 44) && iv == VectorBlock() && p == seq(15, _ => 0)
    ensures Rounds(10) && |w| == 44
    ensures var k := AesKeyed(w, 10); CbcDecIv(k, iv, CbcEnc(k, iv, p), 15) != CbcEncIv(k, iv, p)
  {
    hide CbcEnc, CbcDecIv, CbcEncIv, KeySchedule, VectorKey, VectorBlock, XorInto, EncryptBlock, DecryptBlock;
    VectorMoves(w, iv);
    AesInverse(w, 10);
    FinalIvAgrees(AesKeyed(w, 10), iv, p);
    XorZeros(p, iv);
  }

  lemma ZeroAdd(a: bv8)
    ensures Add(0, a) == a
  {
  }

  lemma XorZeros(p: seq<bv8>, iv: Block)
    requires |p| <= BLOCK && forall i :: 0 <= i < |p| ==> p[i] == 0
    ensures XorInto(p, iv) == iv
  {
    hide Add;
    forall i | 0 <= i < |p| ensures XorInto(p, iv)[i] == iv[i] {
      ZeroAdd(iv[i]);
    }
  }

  lemma {:induction false} FinalIvs(k: Keyed, iv: Block, p: seq<bv8>)
    ensures var e := CbcEncIv(k, iv, p);
            CbcDecIv(k, iv, CbcEnc(k, iv, p), |p|) == e <==> |p| % BLOCK == 0 || k.dec(e) == e
    decreases |p|
  {
    hide XorInto;
    if 0 < |p| < BLOCK {
      var c := k.enc(XorInto(p, iv));
      assert c[..BLOCK] == c;
    } else if p != [] {
      var c: seq<bv8> := k.enc(XorInto(p[..BLOCK], iv));
      var rest := CbcEnc(k, c, p[BLOCK..]);
      assert (c + rest)[..BLOCK] == c && (c + rest)[BLOCK..] == rest;
      FinalIvs(k, c, p[BLOCK..]);
    }
  }

  /** Cutting the data after whole blocks and carrying ivec over changes nothing. */
  lemma {:induction false} EncSplit(k: Keyed, iv: Block, p: seq<bv8>, q: seq<bv8>)
    requires |p| % BLOCK == 0
    ensures CbcEnc(k, iv, p + q) == CbcEnc(k, iv, p) + CbcEnc(k, CbcEncIv(k, iv, p), q)
    ensures CbcEncIv(k, iv, p + q) == CbcEncIv(k, CbcEncIv(k, iv, p), q)
    decreases |p|
  {
    hide XorInto;
    if p == [] {
      assert p + q == q;
    } else {
      assert |p| >= BLOCK;
      assert (p + q)[..BLOCK] == p[..BLOCK] && (p + q)[BLOCK..] == p[BLOCK..] + q;
      var c := k.enc(XorInto(p[..BLOCK], iv));
      EncSplit(k, c, p[BLOCK..], q);
    }
  }

  lemma {:induction false} DecSplit(k: Keyed, iv: Block, c: seq<bv8>, m: nat, n: nat)
    requires m % BLOCK == 0 && m + RoundUp(n) <= |c|
    ensures RoundUp(m) <= |c| && RoundUp(m + n) <= |c|
    ensures CbcDec(k, iv, c, m + n) == CbcDec(k, iv, c, m) + CbcDec(k, CbcDecIv(k, iv, c, m), c[m..], n)
    ensures CbcDecIv(k, iv, c, m + n) == CbcDecIv(k, CbcDecIv(k, iv, c, m), c[m..], n)
    decreases m
  {
    RoundUpSum(m, n);
    hide XorInto;
    if m == 0 {
      assert c[m..] == c;
    } else {
      assert m >= BLOCK;
      DecSplit(k, c[..BLOCK], c[BLOCK..], m - BLOCK, n);
      assert c[BLOCK..][m - BLOCK..] == c[m..];
    }
  }

  lemma {:induction false} RoundUpSum(m: nat, n: nat)
    requires m % BLOCK == 0
    ensures RoundUp(m) == m && RoundUp(m + n) == m + RoundUp(n)
  {
    if m > 0 {
      RoundUpSum(m - BLOCK, n);
    }
  }

  /** tmp[n] = in[n] ^ ivec[n] for n < len, and ivec[n] beyond. */
  method XorTmp(inp: array<bv8>, pos: nat, len: nat, ivec: array<bv8>) returns (tmp: Block)
    requires 0 < len <= BLOCK && pos + len <= inp.Length && ivec.Length == BLOCK
    ensures tmp == XorInto(inp[pos..pos + len], ivec[..])
    ensures forall n :: 0 <= n < len ==> tmp[n] == inp[pos + n] ^ ivec[n]
    ensures forall n :: len <= n < BLOCK ==> tmp[n] == ivec[n]
  {
    var t: seq<bv8> := [];
    for n := 0 to len
      invariant |t| == n
      invariant forall i :: 0 <= i < n ==> t[i] == inp[pos + i] ^ ivec[i]
    {
      t := t + [inp[pos + n] ^ ivec[n]];
    }
    for n := len to BLOCK
      invariant |t| == n
      invariant forall i :: 0 <= i < len ==> t[i] == inp[pos + i] ^ ivec[i]
      invariant forall i :: len <= i < n ==> t[i] == ivec[i]
    {
      t := t + [ivec[n]];
    }
    tmp := t;
    forall i | 0 <= i < BLOCK ensures tmp[i] == XorInto(inp[pos..pos + len], ivec[..])[i] {
      XorIntoIs(inp[pos..pos + len], ivec[..], i);
    }
  }

  /** memcpy of b to out + pos. */
  method Put(out: array<bv8>, pos: nat, b: seq<bv8>)
    requires pos + |b| <= out.Length
    modifies out
    ensures out[..] == old(out[..pos]) + b + old(out[pos + |b|..])
  {
    ghost var was := out[..];
    for i := 0 to |b|
      invariant out[..] == was[..pos] + b[..i] + was[pos + i..]
    {
      out[pos + i] := b[i];
    }
    assert b[..|b|] == b;
  }

  method EncryptTmp(b: Block, rk: seq<bv32>, rounds: nat) returns (c: Block)
    requires Rounds(rounds) && 4 * rounds + 4 <= |rk|
    ensures c == AesKeyed(rk, rounds).enc(b)
  {
    hide Store, Load;
    c := Encrypt(b, rk, rounds);
  }

  method DecryptTmp(b: Block, rk: seq<bv32>, rounds: nat, ghost w: seq<bv32>) returns (p: Block)
    requires Rounds(rounds) && DecryptSchedule(rk, w, rounds)
    ensures p == AesKeyed(w, rounds).dec(b)
  {
    hide Store, Load;
    p := Decrypt(b, rk, rounds, w);
  }

  lemma OneBlock(k: Keyed, iv: Block, p: seq<bv8>)
    requires 0 < |p| <= BLOCK
    ensures CbcEnc(k, iv, p) == k.enc(XorInto(p, iv)) == CbcEncIv(k, iv, p)
  {
    hide XorInto;
    if |p| == BLOCK {
      assert p[..BLOCK] == p && p[BLOCK..] == [];
    }
  }

  lemma OneBlockDec(k: Keyed, iv: Block, c: seq<bv8>, len: nat)
    requires 0 < len <= BLOCK <= |c|
    ensures CbcDec(k, iv, c, len) == XorInto(k.dec(c[..BLOCK]), iv)[..len]
    ensures CbcDecIv(k, iv, c, len) == if len < BLOCK then k.dec(c[..BLOCK]) else c[..BLOCK]
  {
    hide XorInto;
  }

  predicate Aligned(pos: nat) {
    pos % BLOCK == 0
  }

  /** Where the encrypting loop stands after pos bytes: what is written, what is still to be read and
      what ivec holds. */
  ghost predicate EncAt(k: Keyed, iv: Block, in0: seq<bv8>, out0: seq<bv8>, inp: seq<bv8>, out: seq<bv8>,
                        ivec: seq<bv8>, pos: nat) {
    && Aligned(pos) && pos <= |in0| == |inp| && pos <= |out0| == |out|
    && out[..pos] == CbcEnc(k, iv, in0[..pos]) && out[pos..] == out0[pos..]
    && inp[pos..] == in0[pos..]
    && ivec == CbcEncIv(k, iv, in0[..pos])
  }

  lemma EncStep(k: Keyed, iv: Block, in0: seq<bv8>, pos: nat, len: nat)
    requires pos % BLOCK == 0 && 0 < len <= BLOCK && pos + len <= |in0|
    ensures var c := k.enc(XorInto(in0[pos..pos + len], CbcEncIv(k, iv, in0[..pos])));
            CbcEnc(k, iv, in0[..pos + len]) == CbcEnc(k, iv, in0[..pos]) + c && CbcEncIv(k, iv, in0[..pos + len]) == c
  {
    hide XorInto, CbcEnc, CbcEncIv;
    assert in0[..pos + len] == in0[..pos] + in0[pos..pos + len];
    EncSplit(k, iv, in0[..pos], in0[pos..pos + len]);
    OneBlock(k, CbcEncIv(k, iv, in0[..pos]), in0[pos..pos + len]);
  }

  /** One block further, or the tail. inp' is what the input buffer holds afterwards: in place, the
      bytes just written are no longer input. */
  lemma EncAdvance(k: Keyed, iv: Block, in0: seq<bv8>, out0: seq<bv8>, inp: seq<bv8>, out: seq<bv8>, ivec: Block,
                   pos: nat, len: nat,
                   c: Block, inp': seq<bv8>, out': seq<bv8>)
    requires EncAt(k, iv, in0, out0, inp, out, ivec, pos)
    requires 0 < len <= BLOCK && pos + len <= |in0| && pos + BLOCK <= |out|
    requires c == k.enc(XorInto(inp[pos..pos + len], ivec))
    requires out' == out[..pos] + c + out[pos + BLOCK..]
    requires |inp'| == |inp| && forall i :: pos + BLOCK <= i < |inp| ==> inp'[i] == inp[i]
    ensures out'[..pos + BLOCK] == CbcEnc(k, iv, in0[..pos + len]) && out'[pos + BLOCK..] == out0[pos + BLOCK..]
    ensures c == CbcEncIv(k, iv, in0[..pos + len])
    ensures len == BLOCK ==> Aligned(pos + BLOCK) && EncAt(k, iv, in0, out0, inp', out', c, pos + BLOCK)
  {
    hide XorInto, CbcEnc, CbcEncIv;
    assert inp[pos..pos + len] == inp[pos..][..len] == in0[pos..][..len] == in0[pos..pos + len];
    EncStep(k, iv, in0, pos, len);
    assert out'[..pos + BLOCK] == out[..pos] + c;
    assert out'[pos + BLOCK..] == out[pos..][BLOCK..] == out0[pos..][BLOCK..] == out0[pos + BLOCK..];
    assert len == BLOCK ==> inp'[pos + BLOCK..] == inp[pos..][BLOCK..] == in0[pos..][BLOCK..] == in0[pos + BLOCK..];
  }

  /** Encrypt the len bytes at pos and chain. */
  method EncBlock(inp: array<bv8>, out: array<bv8>, length: nat, pos: nat, len: nat, rk: seq<bv32>, rounds: nat,
                  ivec: array<bv8>) returns (ghost c: Block)
    requires Rounds(rounds) && 4 * rounds + 4 <= |rk|
    requires 0 < len <= BLOCK && pos + len <= length <= inp.Length && pos + BLOCK <= out.Length
    requires ivec.Length == BLOCK && ivec != inp && ivec != out
    modifies out, ivec
    ensures c == AesKeyed(rk, rounds).enc(XorInto(old(inp[..length])[pos..pos + len], old(ivec[..])))
    ensures out[..] == old(out[..pos]) + c + old(out[pos + BLOCK..]) && ivec[..] == c
    ensures forall i :: pos + BLOCK <= i < length ==> inp[i] == old(inp[i])
  {
    hide AesKeyed, XorInto, Rounds;
    assert inp[..length][pos..pos + len] == inp[pos..pos + len];
    var tmp := XorTmp(inp, pos, len, ivec);
    var ct := EncryptTmp(tmp, rk, rounds);
    ghost var was := out[..];
    Put(out, pos, ct);
    assert forall i :: pos + BLOCK <= i < out.Length ==> out[..][i] == was[i];
    Put(ivec, 0, ct);
    c := ct;
  }

  /** AES_cbc_encrypt with enc set. `inp` and `out` may be the same buffer. */
  method CbcEncrypt(inp: array<bv8>, out: array<bv8>, length: nat, rk: seq<bv32>, rounds: nat, ivec: array<bv8>)
    requires Rounds(rounds) && 4 * rounds + 4 <= |rk|
    requires length <= inp.Length && RoundUp(length) <= out.Length
    requires ivec.Length == BLOCK && ivec != inp && ivec != out
    modifies out, ivec
    ensures out[..RoundUp(length)] == CbcEnc(AesKeyed(rk, rounds), old(ivec[..]), old(inp[..length]))
    ensures out[RoundUp(length)..] == old(out[RoundUp(length)..])
    ensures ivec[..] == CbcEncIv(AesKeyed(rk, rounds), old(ivec[..]), old(inp[..length]))
    ensures EncChained(AesKeyed(rk, rounds), old(ivec[..]), old(inp[..length]), out[..RoundUp(length)])
  {
    hide Aligned, EncAt, AesKeyed, XorInto, CbcEnc, CbcEncIv, RoundUp, Rounds, EncChained;
    ghost var k, iv, in0, out0 := AesKeyed(rk, rounds), ivec[..], inp[..length], out[..];
    var len, pos := length, 0;
    EncBegins(k, iv, in0, out0);
    EncIsChained(k, iv, in0);
    RoundUpAtLeast(length, 0);
    while len >= BLOCK
      invariant 0 <= pos <= pos + len == length && Aligned(pos)
      invariant EncAt(k, iv, in0, out0, inp[..length], out[..], ivec[..], pos)
      decreases len
    {
      RoundUpAtLeast(length, pos);
      ghost var i1, o1, v1 := inp[..length], out[..], ivec[..];
      ghost var c := EncBlock(inp, out, length, pos, BLOCK, rk, rounds, ivec);
      EncAdvance(k, iv, in0, out0, i1, o1, v1, pos, BLOCK, c, inp[..length], out[..]);
      len := len - BLOCK;
      pos := pos + BLOCK;
    }
    RoundUpAtLeast(length, pos);
    if len != 0 {
      ghost var i1, o1, v1 := inp[..length], out[..], ivec[..];
      ghost var c := EncBlock(inp, out, length, pos, len, rk, rounds, ivec);
      EncAdvance(k, iv, in0, out0, i1, o1, v1, pos, len, c, inp[..length], out[..]);
      assert in0[..pos + len] == in0;
    } else {
      EncDone(k, iv, in0, out0, inp[..length], out[..], ivec[..]);
    }
  }

  lemma EncBegins(k: Keyed, iv: Block, in0: seq<bv8>, out0: seq<bv8>)
    ensures Aligned(0) && EncAt(k, iv, in0, out0, in0, out0, iv, 0)
  {
  }

  lemma EncDone(k: Keyed, iv: Block, in0: seq<bv8>, out0: seq<bv8>, inp: seq<bv8>, out: seq<bv8>, ivec: seq<bv8>)
    requires EncAt(k, iv, in0, out0, inp, out, ivec, |in0|)
    ensures out[..|in0|] == CbcEnc(k, iv, in0) && out[|in0|..] == out0[|in0|..] && ivec == CbcEncIv(k, iv, in0)
  {
    hide CbcEnc, CbcEncIv;
    assert in0[..|in0|] == in0;
  }

  /** A block that starts before n fits in n rounded up; the last one ends there. */
  lemma {:induction false} RoundUpAtLeast(n: nat, pos: nat)
    requires Aligned(pos) && pos <= n
    ensures n <= RoundUp(n) && (pos < n ==> pos + BLOCK <= RoundUp(n))
    ensures n - pos < BLOCK ==> RoundUp(n) == if n == pos then n else pos + BLOCK
    decreases n
  {
    if n >= BLOCK {
      RoundUpAtLeast(n - BLOCK, if pos == 0 then 0 else pos - BLOCK);
    }
  }

  /** Where the decrypting loop stands after pos bytes. */
  ghost predicate DecAt(k: Keyed, iv: Block, in0: seq<bv8>, out0: seq<bv8>, inp: seq<bv8>, out: seq<bv8>,
                        ivec: seq<bv8>, pos: nat) {
    && Aligned(pos) && pos <= |in0| == |inp| && pos <= |out0| == |out| && RoundUp(pos) <= |in0|
    && out[..pos] == CbcDec(k, iv, in0, pos) && out[pos..] == out0[pos..]
    && inp[pos..] == in0[pos..]
    && ivec == CbcDecIv(k, iv, in0, pos)
  }

  lemma DecStep(k: Keyed, iv: Block, in0: seq<bv8>, pos: nat, len: nat)
    requires pos % BLOCK == 0 && 0 < len <= BLOCK && pos + BLOCK <= |in0|
    ensures RoundUp(pos) <= |in0| && RoundUp(pos + len) <= |in0|
    ensures var b := k.dec(in0[pos..pos + BLOCK]);
            && CbcDec(k, iv, in0, pos + len) == CbcDec(k, iv, in0, pos) + XorInto(b, CbcDecIv(k, iv, in0, pos))[..len]
            && CbcDecIv(k, iv, in0, pos + len) == if len < BLOCK then b else in0[pos..pos + BLOCK]
  {
    hide XorInto, CbcDec, CbcDecIv;
    RoundUpSum(pos, len);
    assert RoundUp(len) == BLOCK;
    DecSplit(k, iv, in0, pos, len);
    OneBlockDec(k, CbcDecIv(k, iv, in0, pos), in0[pos..], len);
    assert in0[pos..][..BLOCK] == in0[pos..pos + BLOCK];
  }

  lemma DecAdvance(k: Keyed, iv: Block, in0: seq<bv8>, out0: seq<bv8>, inp: seq<bv8>, out: seq<bv8>, ivec: Block,
                   pos: nat, len: nat,
                   b: Block, ivec': Block, inp': seq<bv8>, out': seq<bv8>)
    requires DecAt(k, iv, in0, out0, inp, out, ivec, pos)
    requires 0 < len <= BLOCK && pos + BLOCK <= |in0| && pos + len <= |out|
    requires b == k.dec(inp[pos..pos + BLOCK]) && ivec' == if len < BLOCK then b else inp[pos..pos + BLOCK]
    requires out' == out[..pos] + XorInto(b, ivec)[..len] + out[pos + len..]
    requires |inp'| == |inp| && forall i :: pos + BLOCK <= i < |inp| ==> inp'[i] == inp[i]
    ensures RoundUp(pos + len) <= |in0|
    ensures out'[..pos + len] == CbcDec(k, iv, in0, pos + len) && out'[pos + len..] == out0[pos + len..]
    ensures ivec' == CbcDecIv(k, iv, in0, pos + len)
    ensures len == BLOCK ==> Aligned(pos + BLOCK) && DecAt(k, iv, in0, out0, inp', out', ivec', pos + BLOCK)
  {
    hide XorInto, CbcDec, CbcDecIv;
    assert inp[pos..pos + BLOCK] == inp[pos..][..BLOCK] == in0[pos..][..BLOCK] == in0[pos..pos + BLOCK];
    DecStep(k, iv, in0, pos, len);
    assert out'[..pos + len] == out[..pos] + XorInto(b, ivec)[..len];
    assert out'[pos + len..] == out[pos..][len..] == out0[pos..][len..] == out0[pos + len..];
    assert len == BLOCK ==> inp'[pos + BLOCK..] == inp[pos..][BLOCK..] == in0[pos..][BLOCK..] == in0[pos + BLOCK..];
  }

  /** Decrypt one ciphertext block and put the first len bytes. */
  method DecBlock(inp: array<bv8>, out: array<bv8>, size: nat, pos: nat, len: nat, rk: seq<bv32>, rounds: nat,
                  ivec: array<bv8>, ghost w: seq<bv32>)
    returns (ghost b: Block)
    requires Rounds(rounds) && DecryptSchedule(rk, w, rounds) && 4 * rounds + 4 <= |w|
    requires 0 < len <= BLOCK && pos + BLOCK <= size <= inp.Length && pos + len <= out.Length
    requires ivec.Length == BLOCK && ivec != inp && ivec != out
    modifies out, ivec
    ensures b == AesKeyed(w, rounds).dec(old(inp[..size])[pos..pos + BLOCK])
    ensures out[..] == old(out[..pos]) + XorInto(b, old(ivec[..]))[..len] + old(out[pos + len..])
    ensures ivec[..] == if len < BLOCK then b else old(inp[..size])[pos..pos + BLOCK]
    ensures forall i :: pos + BLOCK <= i < size ==> inp[i] == old(inp[i])
  {
    hide AesKeyed, XorInto, Rounds, DecryptSchedule, Add;
    assert inp[..size][pos..pos + BLOCK] == inp[pos..pos + BLOCK];
    var tmp: Block := inp[pos..pos + BLOCK];
    var p := DecryptTmp(tmp, rk, rounds, w);
    var clear := XorSeq(p, ivec);
    ghost var was := out[..];
    Put(out, pos, clear[..len]);
    assert forall i :: pos + BLOCK <= i < out.Length ==> out[..][i] == was[i];
    Put(ivec, 0, if len < BLOCK then p else tmp);
    b := p;
  }

  /** out[n] ^= ivec[n]. */
  method XorSeq(p: Block, ivec: array<bv8>) returns (x: Block)
    requires ivec.Length == BLOCK
    ensures x == XorInto(p, ivec[..])
    ensures forall n :: 0 <= n < BLOCK ==> x[n] == p[n] ^ ivec[n]
  {
    var a := new bv8[BLOCK](i requires 0 <= i < BLOCK => p[i]);
    x := XorTmp(a, 0, BLOCK, ivec);
    assert a[0..BLOCK] == p;
  }

  /** AES_cbc_encrypt with enc clear. `inp` and `out` may be the same buffer; a short tail reads a whole block. */
  method CbcDecrypt(inp: array<bv8>, out: array<bv8>, length: nat, rk: seq<bv32>, rounds: nat, ivec: array<bv8>,
                    ghost w: seq<bv32>)
    requires Rounds(rounds) && DecryptSchedule(rk, w, rounds) && 4 * rounds + 4 <= |w|
    requires RoundUp(length) <= inp.Length && length <= out.Length
    requires ivec.Length == BLOCK && ivec != inp && ivec != out
    modifies out, ivec
    ensures out[..length] == CbcDec(AesKeyed(w, rounds), old(ivec[..]), old(inp[..RoundUp(length)]), length)
    ensures out[length..] == old(out[length..])
    ensures ivec[..] == CbcDecIv(AesKeyed(w, rounds), old(ivec[..]), old(inp[..RoundUp(length)]), length)
    ensures DecChained(AesKeyed(w, rounds), old(ivec[..]), old(inp[..RoundUp(length)]), length, out[..length])
  {
    hide Aligned, DecAt, AesKeyed, XorInto, CbcDec, CbcDecIv, RoundUp, Rounds, DecryptSchedule, DecChained;
    var size := RoundUp(length);
    ghost var k, iv, in0, out0 := AesKeyed(w, rounds), ivec[..], inp[..size], out[..];
    var len, pos := length, 0;
    DecBegins(k, iv, in0, out0);
    DecIsChained(k, iv, in0, length);
    while len >= BLOCK
      invariant 0 <= pos <= pos + len == length && Aligned(pos)
      invariant DecAt(k, iv, in0, out0, inp[..size], out[..], ivec[..], pos)
      decreases len
    {
      RoundUpAtLeast(length, pos);
      ghost var i1, o1, v1 := inp[..size], out[..], ivec[..];
      ghost var b := DecBlock(inp, out, size, pos, BLOCK, rk, rounds, ivec, w);
      DecAdvance(k, iv, in0, out0, i1, o1, v1, pos, BLOCK, b, ivec[..], inp[..size], out[..]);
      len := len - BLOCK;
      pos := pos + BLOCK;
    }
    RoundUpAtLeast(length, pos);
    if len != 0 {
      ghost var i1, o1, v1 := inp[..size], out[..], ivec[..];
      ghost var b := DecBlock(inp, out, size, pos, len, rk, rounds, ivec, w);
      DecAdvance(k, iv, in0, out0, i1, o1, v1, pos, len, b, ivec[..], inp[..size], out[..]);
    } else {
      DecDone(k, iv, in0, out0, inp[..size], out[..], ivec[..], length);
    }
  }

  lemma DecBegins(k: Keyed, iv: Block, in0: seq<bv8>, out0: seq<bv8>)
    ensures Aligned(0) && DecAt(k, iv, in0, out0, in0, out0, iv, 0)
  {
  }

  lemma DecDone(k: Keyed, iv: Block, in0: seq<bv8>, out0: seq<bv8>, inp: seq<bv8>, out: seq<bv8>, ivec: seq<bv8>,
                len: nat)
    requires DecAt(k, iv, in0, out0, inp, out, ivec, len)
    ensures RoundUp(len) <= |in0| && out[..len] == CbcDec(k, iv, in0, len) && out[len..] == out0[len..]
    ensures ivec == CbcDecIv(k, iv, in0, len)
  {
  }

  /** A buffer holding iv. */
  method Fresh(iv: Block) returns (a: array<bv8>)
    ensures fresh(a) && a.Length == BLOCK && a[..] == iv
  {
    a := new bv8[BLOCK](i requires 0 <= i < BLOCK => iv[i]);
  }

  /** The code end to end, in place: encrypting and then decrypting a buffer with the same key and initial
      vector gives its first `length` bytes back, for every key size and every length. */
  method ThereAndBack(userKey: seq<bv8>, bits: int, iv: Block, buf: array<bv8>, length: nat)
    requires (bits == 128 || bits == 192 || bits == 256) && 8 * |userKey| >= bits
    requires length <= buf.Length && RoundUp(length) <= buf.Length
    modifies buf
    ensures buf[..length] == old(buf[..length])
    ensures buf[RoundUp(length)..] == old(buf[RoundUp(length)..])
  {
    hide KeyWord, DecryptSchedule, AesKeyed, CbcEnc, CbcDec, CbcEncIv, CbcDecIv, RoundUp;
    var ek := new AesKey();
    var dk := new AesKey();
    var s1 := ek.SetEncryptKey(userKey, bits);
    var s2 := dk.SetDecryptKey(userKey, bits);
    ghost var w := KeySchedule(userKey, bits / 32, 4 * ek.rounds + 4);
    ghost var k := AesKeyed(w, ek.rounds);
    var rk := ek.rdKey[..4 * ek.rounds + 4];
    var v1 := Fresh(iv);
    var v2 := Fresh(iv);
    RoundUpAtLeast0(length);
    CbcEncrypt(buf, buf, length, rk, ek.rounds, v1);
    CbcDecrypt(buf, buf, length, dk.rdKey[..], dk.rounds, v2, w);
    AesInverse(w, ek.rounds);
    CbcRoundTrip(k, iv, old(buf[..length]));
    assert buf[RoundUp(length)..] == buf[length..][RoundUp(length) - length..];
  }

  lemma RoundUpAtLeast0(n: nat)
    ensures n <= RoundUp(n)
  {
    RoundUpAtLeast(n, 0);
  }
}
