/** PCR values, PCR selections, and the digests a TPM computes over them. */
module PcrSelection {
  import opened Basics
  import opened Hashing

  const NUM_PCRS: nat := 24

  /** TPM_CC_PolicyPCR. */
  const CC_POLICY_PCR: Bytes := [0x00, 0x00, 0x01, 0x7F]

  /** PCR values of one bank. */
  datatype PCRs = PCRs(hash: HashAlg, pcrs: map<nat, Bytes>)

  /** A list of PCR indexes of one bank. */
  datatype Selection = Selection(hash: HashAlg, pcrs: seq<nat>)

  /** Indexes a selection bitmask of three bytes can hold. */
  ghost predicate InMask(s: set<nat>) {
    forall i | i in s :: i < NUM_PCRS
  }

  // ----- Scans

  /** Same bank, and every PCR of the subset is in the superset with the same value. */
  predicate Subset(subset: PCRs, superset: PCRs) {
    && subset.hash == superset.hash
    && forall i | i in subset.pcrs :: i in superset.pcrs && superset.pcrs[i] == subset.pcrs[i]
  }

  method CheckSubset(subset: PCRs, superset: PCRs) returns (ok: bool)
    ensures ok <==> Subset(subset, superset)
  {
    if subset.hash != superset.hash {
      return false;
    }
    var keys := subset.pcrs.Keys;
    while keys != {}
      invariant keys <= subset.pcrs.Keys
      invariant forall i | i in subset.pcrs && i !in keys :: i in superset.pcrs && superset.pcrs[i] == subset.pcrs[i]
      decreases keys
    {
      var i :| i in keys;
      if i !in superset.pcrs || superset.pcrs[i] != subset.pcrs[i] {
        return false;
      }
      keys := keys - {i};
    }
    return true;
  }

  predicate SameSelection(p: PCRs, sel: Selection) {
    && p.hash == sel.hash
    && |p.pcrs| == |sel.pcrs|
    && forall i | 0 <= i < |sel.pcrs| :: sel.pcrs[i] in p.pcrs
  }

  method SamePCRSelection(p: PCRs, sel: Selection) returns (same: bool)
    ensures same <==> SameSelection(p, sel)
  {
    if p.hash != sel.hash || |p.pcrs| != |sel.pcrs| {
      return false;
    }
    var i := 0;
    while i < |sel.pcrs|
      invariant 0 <= i <= |sel.pcrs|
      invariant forall k | 0 <= k < i :: sel.pcrs[k] in p.pcrs
    {
      if sel.pcrs[i] !in p.pcrs {
        return false;
      }
      i := i + 1;
    }
    return true;
  }

  /** Counting entries identifies the selected PCRs when no index is listed twice. */
  lemma SameSelectionDomain(p: PCRs, sel: Selection)
    requires Distinct(sel.pcrs)
    ensures SameSelection(p, sel) <==> p.hash == sel.hash && p.pcrs.Keys == Elements(sel.pcrs)
  {
    ElementsSize(sel.pcrs);
    assert |p.pcrs| == |p.pcrs.Keys|;
    if SameSelection(p, sel) {
      assert Elements(sel.pcrs) <= p.pcrs.Keys;
      SubsetOfSameSize(Elements(sel.pcrs), p.pcrs.Keys);
    }
  }

  lemma SubsetOfSameSize<T>(a: set<T>, b: set<T>)
    requires a <= b && |a| == |b|
    ensures a == b
  {
    assert b == a + (b - a);
  }

  /** ... and only then: for a selection with a repetition some other set of PCRs passes too. */
  lemma RepetitionIsAmbiguous(sel: Selection) returns (p: PCRs)
    requires !Distinct(sel.pcrs)
    ensures SameSelection(p, sel) && p.pcrs.Keys != Elements(sel.pcrs)
  {
    ElementsSize(sel.pcrs);
    var keys := Padded(Elements(sel.pcrs), |sel.pcrs| - |Elements(sel.pcrs)|);
    p := PCRs(sel.hash, map i | i in keys :: []);
    assert p.pcrs.Keys == keys;
  }

  lemma Padded(s: set<nat>, extra: nat) returns (t: set<nat>)
    ensures s <= t && |t| == |s| + extra
    decreases extra
  {
    t := s;
    if extra > 0 {
      var x := Fresh(s);
      t := Padded(s + {x}, extra - 1);
    }
  }

  lemma Fresh(s: set<nat>) returns (x: nat)
    ensures forall y | y in s :: y < x
  {
    x := 0;
    if s != {} {
      var z :| z in s;
      x := Fresh(s - {z});
      x := if x <= z then z + 1 else x;
      assert forall y | y in s :: y == z || y in s - {z};
    }
  }

  // ----- Digest of PCR values

  /** Values of the PCRs below `n`, in index order. */
  function Concat(pcrs: map<nat, Bytes>, n: nat): Bytes {
    if n == 0 then [] else Concat(pcrs, n - 1) + if n - 1 in pcrs then pcrs[n - 1] else []
  }

  function DigestOf(h: Hash, a: HashAlg, pcrs: map<nat, Bytes>): Bytes {
    h(a, Concat(pcrs, NUM_PCRS))
  }

  method PCRDigest(h: Hash, a: HashAlg, p: PCRs) returns (digest: Bytes)
    ensures digest == DigestOf(h, a, p.pcrs)
  {
    var message := [];
    var i := 0;
    while i < NUM_PCRS
      invariant 0 <= i <= NUM_PCRS
      invariant message == Concat(p.pcrs, i)
    {
      if i in p.pcrs {
        message := message + p.pcrs[i];
      }
      i := i + 1;
    }
    return h(a, message);
  }

  /** Every PCR value is as long as its bank's digests. */
  ghost predicate Blocks(pcrs: map<nat, Bytes>, size: nat) {
    forall i | i in pcrs :: |pcrs[i]| == size
  }

  lemma {:induction false} ConcatInjective(p: map<nat, Bytes>, q: map<nat, Bytes>, size: nat, n: nat)
    requires Blocks(p, size) && Blocks(q, size)
    requires forall i | 0 <= i < n :: i in p <==> i in q
    requires Concat(p, n) == Concat(q, n)
    ensures forall i | 0 <= i < n && i in p :: p[i] == q[i]
  {
    if n > 0 {
      var x, y := Concat(p, n - 1), Concat(q, n - 1);
      if n - 1 in p {
        assert |x| == |Concat(p, n)| - size == |y|;
        ConcatSplit(x, p[n - 1], y, q[n - 1]);
      } else {
        assert x + [] == x && y + [] == y;
      }
      ConcatInjective(p, q, size, n - 1);
    }
  }

  /** Equal digests over the same PCRs mean equal values, unless two different messages collided. */
  lemma DigestBindsValues(h: Hash, a: HashAlg, p: map<nat, Bytes>, q: map<nat, Bytes>, size: nat)
    requires Blocks(p, size) && Blocks(q, size) && p.Keys == q.Keys && InMask(p.Keys)
    requires DigestOf(h, a, p) == DigestOf(h, a, q)
    ensures p == q || Collision(h, a, Concat(p, NUM_PCRS), Concat(q, NUM_PCRS))
  {
    if Concat(p, NUM_PCRS) == Concat(q, NUM_PCRS) {
      ConcatInjective(p, q, size, NUM_PCRS);
      assert forall i | i in p :: i in q && p[i] == q[i];
    }
  }

  // ----- Encoding of selections

  function Pow2(n: nat): nat {
    if n == 0 then 1 else 2 * Pow2(n - 1)
  }

  /** The sum of 2^j over the j below `n` for which `base + j` is selected. */
  function MaskBits(s: set<nat>, base: nat, n: nat): (m: nat)
    ensures m < Pow2(n)
  {
    if n == 0 then 0 else MaskBits(s, base, n - 1) + if base + n - 1 in s then Pow2(n - 1) else 0
  }

  /** A byte with bit j set exactly when `base + j` is selected. */
  function MaskByte(s: set<nat>, base: nat): byte {
    assert Pow2(8) == 256 by { assert Pow2(4) == 16; }
    MaskBits(s, base, 8)
  }

  /** TPML_PCR_SELECTION with one entry and a three-byte bitmask. */
  function Encoding(a: HashAlg, s: set<nat>): Bytes {
    [0, 0, 0, 1] + [0, AlgId(a)] + [3] + [MaskByte(s, 0), MaskByte(s, 8), MaskByte(s, 16)]
  }

  lemma {:induction false} MaskBitsInjective(s: set<nat>, t: set<nat>, base: nat, n: nat)
    requires MaskBits(s, base, n) == MaskBits(t, base, n)
    ensures forall i | base <= i < base + n :: i in s <==> i in t
  {
    if n > 0 {
      assert (base + n - 1 in s) == (base + n - 1 in t);
      MaskBitsInjective(s, t, base, n - 1);
    }
  }

  /** An encoding determines the bank and the selected PCRs. */
  lemma EncodingInjective(a: HashAlg, s: set<nat>, b: HashAlg, t: set<nat>)
    requires InMask(s) && InMask(t) && Encoding(a, s) == Encoding(b, t)
    ensures a == b && s == t
  {
    var x, y := Encoding(a, s), Encoding(b, t);
    assert x[5] == AlgId(a) && y[5] == AlgId(b);
    assert x[7] == MaskByte(s, 0) && y[7] == MaskByte(t, 0);
    assert x[8] == MaskByte(s, 8) && y[8] == MaskByte(t, 8);
    assert x[9] == MaskByte(s, 16) && y[9] == MaskByte(t, 16);
    MaskBitsInjective(s, t, 0, 8);
    MaskBitsInjective(s, t, 8, 8);
    MaskBitsInjective(s, t, 16, 8);
  }

  // Bits of the mask bytes while they are being built.

  function Bit(k: nat): bv8
    requires k < 8
  {
    if k == 0 then 1 else if k == 1 then 2 else if k == 2 then 4 else if k == 3 then 8
    else if k == 4 then 16 else if k == 5 then 32 else if k == 6 then 64 else 128
  }

  predicate IsSet(x: bv8, k: nat)
    requires k < 8
  {
    x & Bit(k) != 0
  }

  lemma OrSetsOneBit(x: bv8, k: nat, j: nat)
    requires k < 8 && j < 8
    ensures IsSet(x | Bit(k), j) <==> IsSet(x, j) || j == k
  {
  }

  /** The number whose binary digits are the low `n` bits of `x`. */
  function BitsOf(x: bv8, n: nat): (m: nat)
    requires n <= 8
    ensures m < Pow2(n)
  {
    if n == 0 then 0 else BitsOf(x, n - 1) + if IsSet(x, n - 1) then Pow2(n - 1) else 0
  }

  function ByteOf(x: bv8): byte {
    assert Pow2(8) == 256 by { assert Pow2(4) == 16; }
    BitsOf(x, 8)
  }

  /** Three mask bytes with exactly the bits of `s` set. */
  ghost predicate MaskIs(bits: seq<bv8>, s: set<nat>) {
    && |bits| == 3
    && forall n, j | 0 <= n < 3 && 0 <= j < 8 :: IsSet(bits[n], j) <==> 8 * n + j in s
  }

  lemma MaskStep(bits: seq<bv8>, s: set<nat>, pcr: nat)
    requires MaskIs(bits, s) && pcr < NUM_PCRS
    ensures MaskIs(bits[pcr / 8 := bits[pcr / 8] | Bit(pcr % 8)], s + {pcr})
  {
    var bits' := bits[pcr / 8 := bits[pcr / 8] | Bit(pcr % 8)];
    forall n, j | 0 <= n < 3 && 0 <= j < 8 ensures IsSet(bits'[n], j) <==> 8 * n + j in s + {pcr} {
      OrSetsOneBit(bits[n], pcr % 8, j);
      assert 8 * n + j == pcr <==> n == pcr / 8 && j == pcr % 8;
    }
  }

  lemma MaskDone(bits: seq<bv8>, s: set<nat>)
    requires MaskIs(bits, s)
    ensures ByteOf(bits[0]) == MaskByte(s, 0) && ByteOf(bits[1]) == MaskByte(s, 8) && ByteOf(bits[2]) == MaskByte(s, 16)
  {
    BitsAreMask(bits[0], s, 0, 8);
    BitsAreMask(bits[1], s, 8, 8);
    BitsAreMask(bits[2], s, 16, 8);
  }

  lemma {:induction false} BitsAreMask(x: bv8, s: set<nat>, base: nat, n: nat)
    requires n <= 8
    requires forall j | 0 <= j < n :: IsSet(x, j) <==> base + j in s
    ensures BitsOf(x, n) == MaskBits(s, base, n)
  {
    if n > 0 {
      BitsAreMask(x, s, base, n - 1);
    }
  }

  lemma ElementsSnoc<T>(s: seq<T>, x: T)
    ensures Elements(s + [x]) == Elements(s) + {x}
  {
  }

  method BuildMask(pcrs: seq<nat>) returns (bits: array<bv8>)
    requires forall i | 0 <= i < |pcrs| :: pcrs[i] < NUM_PCRS
    ensures MaskIs(bits[..], Elements(pcrs))
  {
    bits := new bv8[3](_ => 0);
    var i := 0;
    while i < |pcrs|
      invariant 0 <= i <= |pcrs|
      invariant MaskIs(bits[..], Elements(pcrs[..i]))
    {
      var pcr := pcrs[i];
      ghost var mask := bits[..];
      MaskStep(mask, Elements(pcrs[..i]), pcr);
      ElementsSnoc(pcrs[..i], pcr);
      assert pcrs[..i + 1] == pcrs[..i] + [pcr];
      bits[pcr / 8] := bits[pcr / 8] | Bit(pcr % 8);
      assert bits[..] == mask[pcr / 8 := mask[pcr / 8] | Bit(pcr % 8)];
      i := i + 1;
    }
    assert pcrs[..i] == pcrs;
  }

  /** Bit `j` of a number. */
  predicate BitSet(x: nat, j: nat) {
    if j == 0 then x % 2 == 1 else BitSet(x / 2, j - 1)
  }

  lemma {:induction false} MaskLow(s: set<nat>, base: nat, n: nat)
    requires n > 0
    ensures MaskBits(s, base, n) == 2 * MaskBits(s, base + 1, n - 1) + if base in s then 1 else 0
  {
    if n > 1 {
      MaskLow(s, base, n - 1);
    }
  }

  /** The mask as a number has the bits it was summed from. */
  lemma {:induction false} MaskBit(s: set<nat>, base: nat, n: nat, j: nat)
    requires j < n
    ensures BitSet(MaskBits(s, base, n), j) <==> base + j in s
    decreases n
  {
    MaskLow(s, base, n);
    if j > 0 {
      MaskBit(s, base + 1, n - 1, j - 1);
    }
  }

  /** The bytes are a list of one selection: the number of selections and the algorithm identifier, both most significant
      byte first, the size of the mask, and a mask in which bit n % 8 of byte n / 8 stands for PCR n. */
  ghost predicate Selects(b: Bytes, a: HashAlg, s: set<nat>) {
    && |b| == 10 && b[..4] == [0, 0, 0, 1] && 0x100 * (b[4] as int) + b[5] as int == AlgId(a) && b[6] == 3
    && forall n | 0 <= n < NUM_PCRS :: BitSet(b[7 + n / 8], n % 8) <==> n in s
  }

  lemma EncodingSelects(a: HashAlg, s: set<nat>)
    ensures Selects(Encoding(a, s), a, s)
  {
    var b := Encoding(a, s);
    forall n | 0 <= n < NUM_PCRS ensures BitSet(b[7 + n / 8], n % 8) <==> n in s {
      MaskBit(s, n / 8 * 8, 8, n % 8);
    }
  }

  /** The result depends only on which PCRs are listed: not on their order, nor on repetitions. */
  method EncodePCRSelection(sel: Selection) returns (b: Bytes)
    requires forall i | 0 <= i < |sel.pcrs| :: sel.pcrs[i] < NUM_PCRS
    ensures b == Encoding(sel.hash, Elements(sel.pcrs))
    ensures Selects(b, sel.hash, Elements(sel.pcrs))
  {
    var bits := BuildMask(sel.pcrs);
    MaskDone(bits[..], Elements(sel.pcrs));
    EncodingSelects(sel.hash, Elements(sel.pcrs));
    b := [0, 0, 0, 1] + [0, AlgId(sel.hash)] + [3] + [ByteOf(bits[0]), ByteOf(bits[1]), ByteOf(bits[2])];
  }

  /** Lists the PCRs of a map, in whatever order the map is iterated. */
  method SelectionOf(p: PCRs) returns (sel: Selection)
    ensures sel.hash == p.hash && Distinct(sel.pcrs) && Elements(sel.pcrs) == p.pcrs.Keys
  {
    var keys := p.pcrs.Keys;
    var pcrs := [];
    while keys != {}
      invariant keys <= p.pcrs.Keys && Distinct(pcrs)
      invariant Elements(pcrs) == p.pcrs.Keys - keys
      decreases keys
    {
      var i :| i in keys;
      assert i !in Elements(pcrs);
      ElementsSnoc(pcrs, i);
      pcrs := pcrs + [i];
      keys := keys - {i};
    }
    sel := Selection(p.hash, pcrs);
  }

  // ----- Policy digests

  /** TPM2_PolicyPCR (section 23.7 of TPM 2.0 Library Part 3) on a session holding digest `old`. */
  function PolicyPcr(h: Hash, oldDigest: Bytes, bank: HashAlg, selected: set<nat>, pcrDigest: Bytes): Bytes {
    h(SHA256, oldDigest + CC_POLICY_PCR + Encoding(bank, selected) + pcrDigest)
  }

  /** The authorization policy for a set of PCR values. */
  function AuthOf(h: Hash, p: PCRs): Bytes {
    PolicyPcr(h, Zeros(DigestSize(SHA256)), p.hash, p.pcrs.Keys, DigestOf(h, SHA256, p.pcrs))
  }

  /** The client's calculation is a function of the PCR values alone, and is what the TPM would compute. */
  method PCRSessionAuth(h: Hash, p: PCRs) returns (auth: Bytes)
    requires InMask(p.pcrs.Keys)
    ensures auth == AuthOf(h, p)
  {
    var oldDigest := Zeros(DigestSize(SHA256));
    var sel := SelectionOf(p);
    assert forall i | 0 <= i < |sel.pcrs| :: sel.pcrs[i] in Elements(sel.pcrs);
    var encoded := EncodePCRSelection(sel);
    var digest := PCRDigest(h, SHA256, p);
    auth := h(SHA256, oldDigest + CC_POLICY_PCR + encoded + digest);
  }

  /** The policy digest is that of 32 zero bytes, the command code, the encoded selection and the digest of the values in
      the order of their indexes. */
  lemma AuthMeaning(h: Hash, p: PCRs) returns (encoded: Bytes)
    ensures Selects(encoded, p.hash, p.pcrs.Keys)
    ensures AuthOf(h, p) == h(SHA256, Zeros(32) + [0x00, 0x00, 0x01, 0x7F] + encoded
                                      + h(SHA256, Concat(p.pcrs, NUM_PCRS)))
  {
    encoded := Encoding(p.hash, p.pcrs.Keys);
    EncodingSelects(p.hash, p.pcrs.Keys);
  }

  function AuthMessage(h: Hash, p: PCRs): Bytes {
    Zeros(DigestSize(SHA256)) + CC_POLICY_PCR + Encoding(p.hash, p.pcrs.Keys) + DigestOf(h, SHA256, p.pcrs)
  }

  /** A policy determines the bank, the PCRs and what their values concatenate to, unless SHA-256 collided on a policy
      message or on the concatenated values. */
  lemma AuthBindsConcat(h: Hash, p: PCRs, q: PCRs)
    requires ProperHash(h) && InMask(p.pcrs.Keys) && InMask(q.pcrs.Keys)
    requires AuthOf(h, p) == AuthOf(h, q)
    ensures || (p.hash == q.hash && p.pcrs.Keys == q.pcrs.Keys && Concat(p.pcrs, NUM_PCRS) == Concat(q.pcrs, NUM_PCRS))
            || Collision(h, SHA256, AuthMessage(h, p), AuthMessage(h, q))
            || Collision(h, SHA256, Concat(p.pcrs, NUM_PCRS), Concat(q.pcrs, NUM_PCRS))
  {
    if AuthMessage(h, p) == AuthMessage(h, q) {
      var head := Zeros(DigestSize(SHA256)) + CC_POLICY_PCR;
      var ep, eq := Encoding(p.hash, p.pcrs.Keys), Encoding(q.hash, q.pcrs.Keys);
      var dp, dq := DigestOf(h, SHA256, p.pcrs), DigestOf(h, SHA256, q.pcrs);
      assert |ep| == |eq| == 10;
      ConcatSplit(head + ep, dp, head + eq, dq);
      ConcatSplit(head, ep, head, eq);
      EncodingInjective(p.hash, p.pcrs.Keys, q.hash, q.pcrs.Keys);
    }
  }

  /** Two sets of digest-length PCR values with the same policy are the same, up to the same collisions. */
  lemma AuthBindsValues(h: Hash, p: PCRs, q: PCRs)
    requires ProperHash(h)
    requires Blocks(p.pcrs, DigestSize(p.hash)) && Blocks(q.pcrs, DigestSize(q.hash))
    requires InMask(p.pcrs.Keys) && InMask(q.pcrs.Keys)
    requires AuthOf(h, p) == AuthOf(h, q)
    ensures p == q
            || Collision(h, SHA256, AuthMessage(h, p), AuthMessage(h, q))
            || Collision(h, SHA256, Concat(p.pcrs, NUM_PCRS), Concat(q.pcrs, NUM_PCRS))
  {
    AuthBindsConcat(h, p, q);
    if p.hash == q.hash && p.pcrs.Keys == q.pcrs.Keys && Concat(p.pcrs, NUM_PCRS) == Concat(q.pcrs, NUM_PCRS) {
      DigestBindsValues(h, SHA256, p.pcrs, q.pcrs, DigestSize(p.hash));
    }
  }
}
