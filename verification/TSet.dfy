/** One entry of the T-set: where it is stored, how it is packed and masked, and how the server
    unmasks it (crypto/tset.go and the two ends that use it). CMAC and SHA-512 are parameters. */
module TSet {
  import opened Bytes
  import Oxt

  type Word = Bytes

  // ---------- primitives and keys ----------

  datatype RawPrimitives = RawPrimitives(cmac: (Bytes, Bytes) -> Bytes, sha512: Bytes -> Bytes)

  ghost predicate Sized(p: RawPrimitives) {
    && (forall key, msg :: |p.cmac(key, msg)| == 16)
    && (forall msg :: |p.sha512(msg)| == 64)
  }

  /** CMAC yields 16 bytes and SHA-512 yields 64; nothing else is assumed of them here. */
  type Primitives = p: RawPrimitives | Sized(p)
    ghost witness RawPrimitives((k: Bytes, m: Bytes) => Zeros(16), (m: Bytes) => Zeros(64))

  datatype Keys = Keys(sTag: Bytes, blind: Bytes, xInd: Bytes)

  datatype Env = Env(prims: Primitives, keys: Keys, modulus: nat)

  const EID_BYTES: nat := 4
  const BLIND_BYTES: nat := 28
  const OTP_BYTES: nat := 33

  // ---------- derived values ----------

  datatype TsetVals = TsetVals(bucket: Bytes, lbl: Bytes, otp: Bytes)

  /** b, L, K = SHA-512(CMAC(stag, index)): one byte of bucket, sixteen of label, then the pad. */
  function CalcTsetVals(p: Primitives, stag: Bytes, index: nat): (v: TsetVals)
    ensures |v.bucket| == 1 && |v.lbl| == 16 && |v.otp| == OTP_BYTES
  {
    var sum := p.sha512(p.cmac(stag, BigEndian(index, 4)));
    TsetVals(sum[0..1], sum[1..17], sum[17..50])
  }

  /** Bucket, label and pad are the first fifty bytes of the digest: no byte is used twice or
      skipped. */
  lemma DigestSplit(p: Primitives, stag: Bytes, index: nat)
    ensures var v := CalcTsetVals(p, stag, index);
            v.bucket + v.lbl + v.otp == p.sha512(p.cmac(stag, BigEndian(index, 4)))[..50]
  {
  }

  function Stag(e: Env, w: Word): Bytes {
    e.prims.cmac(e.keys.sTag, w)
  }

  function BlindInput(w: Word, counter: nat): Bytes {
    w + BigEndian(counter, 4)
  }

  /** z = F_p(K_z, w || c) */
  function Z(e: Env, w: Word, counter: nat): nat {
    FromBigEndian(e.prims.cmac(e.keys.blind, BlindInput(w, counter)))
  }

  /** xind = F_p(K_i, ind) */
  function XInd(e: Env, docId: nat): nat {
    FromBigEndian(e.prims.cmac(e.keys.xInd, BigEndian(docId, 4)))
  }

  function PermuteDocId(docId: nat): Bytes {
    BigEndian(docId, EID_BYTES)
  }

  function UnpermuteDocId(eId: Bytes): nat {
    FromBigEndian(eId)
  }

  /** `out[i] = x[i] ^ y[i]` over the length of x; Go stops if y is shorter. */
  method XorBytes(x: Bytes, y: Bytes) returns (out: Bytes)
    requires |x| <= |y|
    ensures out == Xor(x, y)
    ensures |out| == |x|
    ensures forall k, i :: 0 <= k < |x| && 0 <= i < 8 ==>
              (out[k] / Pow2(i)) % 2 == (x[k] / Pow2(i) + y[k] / Pow2(i)) % 2
  {
    var buf := new byte[|x|];
    var i := 0;
    while i < |x|
      invariant 0 <= i <= |x|
      invariant forall k :: 0 <= k < i ==> buf[k] == XorByte(x[k], y[k])
    {
      buf[i] := XorByte(x[i], y[i]);
      i := i + 1;
    }
    out := buf[..];
    forall k, i | 0 <= k < |x| && 0 <= i < 8
      ensures (out[k] / Pow2(i)) % 2 == (x[k] / Pow2(i) + y[k] / Pow2(i)) % 2
    {
      XorBytesBit(x, y, k, i);
    }
  }

  // ---------- packing and masking ----------

  /** One entry of a word's inverted list, before encryption. */
  datatype Entry = Entry(word: Word, slot: nat, docId: nat, last: bool)

  datatype Fragment = Fragment(bucket: Bytes, lbl: Bytes, data: Bytes)

  datatype TupleData = TupleData(eId: Option<Bytes>, blindingVal: Bytes, workerIndex: nat, isLast: bool)

  /** The blinded document index of an entry; the blinding counter is one behind the slot. */
  function BlindOf(e: Env, en: Entry): Option<nat>
    requires e.modulus > 1 && en.slot > 0
  {
    Oxt.BlindedXind(Z(e, en.word, en.slot - 1), XInd(e, en.docId), e.modulus)
  }

  /** flag, then document id, then y in a field of fixed width. */
  function Pack(last: bool, docId: nat, y: nat): (s: Bytes)
    ensures |s| == OTP_BYTES
  {
    [if last then 1 else 0] + PermuteDocId(docId) + BigEndian(y, BLIND_BYTES)
  }

  /** calcTsetTuple, with y padded to its 28-byte field. */
  function Seal(e: Env, en: Entry): (f: Fragment)
    requires Usable(e, en)
    ensures |f.data| == OTP_BYTES
  {
    var v := CalcTsetVals(e.prims, Stag(e, en.word), en.slot);
    Fragment(v.bucket, v.lbl, Xor(Pack(en.last, en.docId, BlindOf(e, en).value), v.otp))
  }

  /** z has an inverse, so the client gets past computeBlindedXind. */
  predicate Usable(e: Env, en: Entry) {
    1 < e.modulus && 0 < en.slot && BlindOf(e, en).Some?
  }

  /** The decrypting half of tupleFetcher, with the field offsets of the 1 + 4 + 28 layout. */
  function Open(otp: Bytes, data: Bytes, index: nat): (t: TupleData)
    requires |otp| == OTP_BYTES <= |data|
  {
    var plain := Xor(otp, data);
    TupleData(Some(plain[1..1 + EID_BYTES]),
              plain[1 + EID_BYTES..1 + EID_BYTES + BLIND_BYTES],
              index,
              plain[0] == 1)
  }

  /** The flag is set by the byte 1 alone; id and blinding value follow it. */
  lemma OpenFields(otp: Bytes, data: Bytes, index: nat)
    requires |otp| == 33 <= |data|
    ensures var t, plain := Open(otp, data, index), Xor(otp, data);
            && (t.isLast <==> plain[0] == 1) && t.eId == Some(plain[1..5]) && t.blindingVal == plain[5..]
            && t.workerIndex == index
  {
    var plain := Xor(otp, data);
    assert plain[5..33] == plain[5..];
  }

  // ---------- the round trip ----------

  /** What a search is meant to return for an entry. */
  function Expected(e: Env, en: Entry): (t: TupleData)
    requires Usable(e, en)
  {
    TupleData(Some(PermuteDocId(en.docId)), BigEndian(BlindOf(e, en).value, BLIND_BYTES), en.slot, en.last)
  }

  /** An entry is stored under the first 17 bytes of SHA-512 of the PRF of its slot, keyed with the
      PRF of its word. */
  lemma SealedAddress(e: Env, en: Entry)
    requires Usable(e, en)
    ensures |Seal(e, en).bucket| == 1
    ensures Seal(e, en).bucket + Seal(e, en).lbl
         == e.prims.sha512(e.prims.cmac(e.prims.cmac(e.keys.sTag, en.word), BigEndian(en.slot, 4)))[..17]
  {
  }

  /** Under its mask lie one byte of flag, four of document id and 28 of y, in this order. */
  lemma SealedLayout(e: Env, en: Entry)
    requires Usable(e, en) && e.modulus <= Pow256(BLIND_BYTES)
    ensures var digest := e.prims.sha512(e.prims.cmac(e.prims.cmac(e.keys.sTag, en.word), BigEndian(en.slot, 4)));
            var plain := Xor(Seal(e, en).data, digest[17..50]);
            && |plain| == 33 && plain[0] == (if en.last then 1 else 0)
            && plain[1..5] == [en.docId / 0x100_0000 % 256, en.docId / 0x1_0000 % 256, en.docId / 0x100 % 256,
                               en.docId % 256]
            && FromBigEndian(plain[5..33]) == BlindOf(e, en).value
  {
    SealedPlain(e, en);
    PackLayout(en.last, en.docId, BlindOf(e, en).value);
  }

  lemma SealedPlain(e: Env, en: Entry)
    requires Usable(e, en)
    ensures var digest := e.prims.sha512(e.prims.cmac(e.prims.cmac(e.keys.sTag, en.word), BigEndian(en.slot, 4)));
            Xor(Seal(e, en).data, digest[17..50]) == Pack(en.last, en.docId, BlindOf(e, en).value)
  {
    XorTwice(Pack(en.last, en.docId, BlindOf(e, en).value), CalcTsetVals(e.prims, Stag(e, en.word), en.slot).otp);
  }

  lemma PackLayout(last: bool, docId: nat, y: nat)
    requires y < Pow256(BLIND_BYTES)
    ensures var plain := Pack(last, docId, y);
            && plain[0] == (if last then 1 else 0)
            && plain[1..5] == [docId / 0x100_0000 % 256, docId / 0x1_0000 % 256, docId / 0x100 % 256, docId % 256]
            && FromBigEndian(plain[5..33]) == y
  {
    var plain := Pack(last, docId, y);
    FourBytes(docId);
    BigEndianRoundTrip(y, BLIND_BYTES);
    assert plain[1..5] == BigEndian(docId, 4) && plain[5..33] == BigEndian(y, BLIND_BYTES);
  }

  /** PermuteDocId puts, and UnpermuteDocId reads, four bytes, most significant first. */
  lemma DocIdBytes(docId: nat, b0: byte, b1: byte, b2: byte, b3: byte)
    ensures PermuteDocId(docId) == [docId / 0x100_0000 % 256, docId / 0x1_0000 % 256, docId / 0x100 % 256, docId % 256]
    ensures UnpermuteDocId([b0, b1, b2, b3]) == b0 * 0x100_0000 + b1 * 0x1_0000 + b2 * 0x100 + b3
  {
    FourBytes(docId);
    FromFourBytes(b0, b1, b2, b3);
  }

  /** Unmasking a sealed entry with its own pad recovers flag, document id and y. */
  lemma OpenSealed(e: Env, en: Entry)
    requires Usable(e, en)
    ensures Open(CalcTsetVals(e.prims, Stag(e, en.word), en.slot).otp, Seal(e, en).data, en.slot)
         == Expected(e, en)
  {
    var otp := CalcTsetVals(e.prims, Stag(e, en.word), en.slot).otp;
    var plain := Pack(en.last, en.docId, BlindOf(e, en).value);
    XorCommutes(otp, Seal(e, en).data);
    XorTwice(plain, otp);
    assert plain[1..5] == PermuteDocId(en.docId);
    assert plain[5..33] == BigEndian(BlindOf(e, en).value, BLIND_BYTES);
  }

  lemma BlindKept(e: Env, en: Entry)
    requires Usable(e, en) && e.modulus <= Pow256(BLIND_BYTES)
    ensures FromBigEndian(Expected(e, en).blindingVal) == BlindOf(e, en).value
  {
    BigEndianRoundTrip(BlindOf(e, en).value, BLIND_BYTES);
  }

  lemma BlindSolves(e: Env, en: Entry)
    requires Usable(e, en)
    ensures Oxt.Congruent(BlindOf(e, en).value * Z(e, en.word, en.slot - 1), XInd(e, en.docId), e.modulus)
  {
    Oxt.BlindedXindCorrect(Z(e, en.word, en.slot - 1), XInd(e, en.docId), e.modulus, BlindOf(e, en).value);
  }

  /** The tuple a search returns still determines the document and an index with y*z = xind. */
  lemma ExpectedMeaning(e: Env, en: Entry)
    requires Usable(e, en) && en.docId < TWO32 && e.modulus <= Pow256(BLIND_BYTES)
    ensures UnpermuteDocId(Expected(e, en).eId.value) == en.docId
    ensures Oxt.Congruent(FromBigEndian(Expected(e, en).blindingVal) * Z(e, en.word, en.slot - 1),
                          XInd(e, en.docId), e.modulus)
  {
    assert Pow256(4) == TWO32;
    BigEndianRoundTrip(en.docId, EID_BYTES);
    BlindKept(e, en);
    BlindSolves(e, en);
  }

  /** The blinding PRF's input is the word, then the counter in four bytes. */
  lemma BlindInputParts(w: Word, counter: nat)
    ensures |BlindInput(w, counter)| == |w| + 4 && BlindInput(w, counter)[..|w|] == w
    ensures counter < TWO32 ==> FromBigEndian(BlindInput(w, counter)[|w|..]) == counter
  {
    assert BlindInput(w, counter)[|w|..] == BigEndian(counter, 4);
    assert Pow256(4) == TWO32;
    if counter < TWO32 {
      BigEndianRoundTrip(counter, 4);
    }
  }

  /** Over these words and counters the blinding PRF does not collide. */
  ghost predicate BlindPrfDistinct(e: Env, words: set<Word>, n: nat) {
    forall w, c: nat, w', c': nat ::
      (w in words && w' in words && c <= n && c' <= n && SameBlindPrf(e, w, c, w', c'))
      ==> w + BigEndian(c, 4) == w' + BigEndian(c', 4)
  }

  predicate SameBlindPrf(e: Env, w: Word, c: nat, w': Word, c': nat) {
    e.prims.cmac(e.keys.blind, w + BigEndian(c, 4)) == e.prims.cmac(e.keys.blind, w' + BigEndian(c', 4))
  }

  /** Then no two pairs of word and counter share a blinding value. */
  lemma BlindValuesDistinct(e: Env, words: set<Word>, n: nat, w: Word, c: nat, w': Word, c': nat)
    requires BlindPrfDistinct(e, words, n) && w in words && w' in words && c <= n < TWO32 && c' <= n
    ensures Z(e, w, c) == Z(e, w', c') ==> w == w' && c == c'
  {
    if Z(e, w, c) == Z(e, w', c') {
      FromBigEndianInjective(e.prims.cmac(e.keys.blind, BlindInput(w, c)), e.prims.cmac(e.keys.blind, BlindInput(w', c')));
      assert SameBlindPrf(e, w, c, w', c');
      BlindInputInjective(w, c, w', c');
    }
  }

  /** word || BE32(counter) determines both, although words vary in length. */
  lemma BlindInputInjective(w: Word, c: nat, w': Word, c': nat)
    requires c < TWO32 && c' < TWO32 && BlindInput(w, c) == BlindInput(w', c')
    ensures w == w' && c == c'
  {
    var s := BlindInput(w, c);
    assert s[..|s| - 4] == w && s[|s| - 4..] == BigEndian(c, 4);
    var s' := BlindInput(w', c');
    assert s'[..|s'| - 4] == w' && s'[|s'| - 4..] == BigEndian(c', 4);
    assert Pow256(4) == TWO32;
    BigEndianInjective(c, c', 4);
  }

  /** y.Bytes() never outgrows the pad, whatever z and xind are. */
  lemma BlindedBytesFit(z: nat, xind: nat, n: nat)
    requires 1 < n <= Pow256(BLIND_BYTES) && Oxt.BlindedXind(z, xind, n).Some?
    ensures 1 + EID_BYTES + |MinimalBytes(Oxt.BlindedXind(z, xind, n).value)| <= OTP_BYTES
  {
    MinimalWidth(Oxt.BlindedXind(z, xind, n).value, BLIND_BYTES);
  }

  /** The field prime of P-224 (section D.1.2.2 of FIPS 186-4), which the code passes as modulus. */
  lemma FieldPrimeFits()
    ensures Oxt.P224_PRIME == Pow256(28) - Pow256(12) + 1
    ensures 1 < Oxt.P224_PRIME <= Pow256(BLIND_BYTES)
  {
    assert Pow256(7) == 0x100_0000_0000_0000;
    assert Pow256(14) == Pow256(7) * 0x100_0000_0000_0000;
    assert Pow256(21) == Pow256(14) * 0x100_0000_0000_0000;
    assert Pow256(28) == Pow256(21) * 0x100_0000_0000_0000;
  }
}
