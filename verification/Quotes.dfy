/** Quotes: the verifier's checks, and taking a quote on a TPM that others use too. */
module Quotes {
  import opened Basics
  import opened Hashing
  import opened PcrSelection
  import opened Alignment
  import opened TpmMachine
  import opened Reading

  datatype PublicKey = EcdsaKey(id: nat) | RsaKey(id: nat) | OtherKey

  datatype Scheme = Ecdsa | Rsassa | OtherScheme

  /** A decoded TPM signature; `parts` says which of its ECC and RSA parts is present. */
  datatype Signature = Signature(scheme: Scheme, parts: SigParts, value: Bytes)

  datatype SigParts = EccPart(hashAlg: HashAlg) | RsaPart(hashAlg: HashAlg) | NoPart

  datatype QuoteInfo = QuoteInfo(selection: Selection, pcrDigest: Bytes)

  /** The signed attestation bytes: unreadable or without the TPM magic, or a decoded structure. */
  datatype Attest = Malformed(raw: Bytes) | Attest(isQuote: bool, extraData: Bytes, quoteInfo: Option<QuoteInfo>)

  datatype Quote = Quote(attest: Attest, rawSig: Option<Signature>, pcrs: PCRs)

  datatype QuoteError =
    | BadSignatureEncoding
    | NoHashAlg
    | UnsupportedHash
    | UnsupportedKey
    | WrongScheme
    | BadSignature
    | BadAttestation
    | NotAQuote
    | WrongExtraData
    | WrongSelection
    | WrongDigest

  /** Ideal signatures: which (key, hash algorithm, signed bytes, signature) combinations verify. */
  type Verifier = (PublicKey, HashAlg, Attest, Bytes) -> bool

  /** Hash algorithms allowed for quote signatures, in order of preference. */
  const SIGNATURE_HASH_ALGS: seq<HashAlg> := [SHA512, SHA384, SHA256]

  function SignatureHash(sig: Signature): Result<HashAlg, QuoteError> {
    if sig.parts.NoPart? then Err(NoHashAlg)
    else if sig.parts.hashAlg in SIGNATURE_HASH_ALGS then Ok(sig.parts.hashAlg)
    else Err(UnsupportedHash)
  }

  function CheckSignature(ver: Verifier, key: PublicKey, a: HashAlg, attest: Attest,
                          sig: Signature): Option<QuoteError> {
    match key
    case OtherKey => Some(UnsupportedKey)
    case EcdsaKey(_) =>
      if sig.scheme != Ecdsa then Some(WrongScheme)
      else if ver(key, a, attest, sig.value) then None else Some(BadSignature)
    case RsaKey(_) =>
      if sig.scheme != Rsassa then Some(WrongScheme)
      else if ver(key, a, attest, sig.value) then None else Some(BadSignature)
  }

  function ValidatePCRDigest(h: Hash, a: HashAlg, info: QuoteInfo, pcrs: PCRs): Option<QuoteError> {
    if !SameSelection(pcrs, info.selection) then Some(WrongSelection)
    else if info.pcrDigest != DigestOf(h, a, pcrs.pcrs) then Some(WrongDigest)
    else None
  }

  function CheckAttest(h: Hash, a: HashAlg, q: Quote, extraData: Bytes): Option<QuoteError> {
    match q.attest
    case Malformed(_) => Some(BadAttestation)
    case Attest(isQuote, extra, info) =>
      if !isQuote then Some(NotAQuote)
      else if info.None? then Some(BadAttestation)
      else if extra != extraData then Some(WrongExtraData)
      else ValidatePCRDigest(h, a, info.value, q.pcrs)
  }

  /** `None` when the quote is accepted. */
  function VerifyQuote(h: Hash, ver: Verifier, q: Quote, key: PublicKey, extraData: Bytes): Option<QuoteError> {
    if q.rawSig.None? then Some(BadSignatureEncoding)
    else
      var a := SignatureHash(q.rawSig.value);
      if a.Err? then Some(a.error)
      else
        var bad := CheckSignature(ver, key, a.value, q.attest, q.rawSig.value);
        if bad.Some? then bad else CheckAttest(h, a.value, q, extraData)
  }

  /** A quote that a TPM made over the PCR values `truth`, hashed with `a`. */
  ghost predicate QuotedOver(h: Hash, a: HashAlg, attest: Attest, truth: PCRs) {
    && attest.Attest? && attest.quoteInfo.Some?
    && var info := attest.quoteInfo.value;
    && info.selection.hash == truth.hash && Distinct(info.selection.pcrs)
    && Elements(info.selection.pcrs) == truth.pcrs.Keys
    && InMask(truth.pcrs.Keys) && Blocks(truth.pcrs, DigestSize(truth.hash))
    && info.pcrDigest == DigestOf(h, a, truth.pcrs)
  }

  /** A quote is accepted exactly if its signature, with a hash other than SHA-1 and a scheme that fits the key, verifies
      over a quote of the expected extra data whose digest is that of the values that come with it. */
  lemma AcceptedQuote(h: Hash, ver: Verifier, q: Quote, key: PublicKey, extraData: Bytes)
    ensures VerifyQuote(h, ver, q, key, extraData).None? <==>
            && q.rawSig.Some? && !q.rawSig.value.parts.NoPart?
            && var sig := q.rawSig.value;
            var a := sig.parts.hashAlg;
            && (a == SHA256 || a == SHA384 || a == SHA512)
            && ((key.EcdsaKey? && sig.scheme == Ecdsa) || (key.RsaKey? && sig.scheme == Rsassa))
            && ver(key, a, q.attest, sig.value)
            && q.attest.Attest? && q.attest.isQuote && q.attest.extraData == extraData && q.attest.quoteInfo.Some?
            && SameSelection(q.pcrs, q.attest.quoteInfo.value.selection)
            && q.attest.quoteInfo.value.pcrDigest == DigestOf(h, a, q.pcrs.pcrs)
  {
  }

  /** The hash algorithm of an accepted quote's signature. */
  function HashOf(q: Quote): HashAlg {
    if q.rawSig.Some? && SignatureHash(q.rawSig.value).Ok? then SignatureHash(q.rawSig.value).value else NoAlg
  }

  /** The PCR values that come with an accepted quote are exactly the quoted ones, in domain and in value, if and
      only if each has its bank's digest length, unless the hash collided on the two value strings. */
  lemma QuoteUniqueness(h: Hash, ver: Verifier, q: Quote, key: PublicKey, extraData: Bytes, truth: PCRs)
    requires VerifyQuote(h, ver, q, key, extraData).None?
    requires QuotedOver(h, HashOf(q), q.attest, truth)
    ensures || (q.pcrs == truth <==> Blocks(q.pcrs.pcrs, DigestSize(q.pcrs.hash)))
            || Collision(h, HashOf(q), Concat(q.pcrs.pcrs, NUM_PCRS), Concat(truth.pcrs, NUM_PCRS))
  {
    AcceptedQuote(h, ver, q, key, extraData);
    SameSelectionDomain(q.pcrs, q.attest.quoteInfo.value.selection);
    if Blocks(q.pcrs.pcrs, DigestSize(q.pcrs.hash)) {
      DigestBindsValues(h, HashOf(q), q.pcrs.pcrs, truth.pcrs, DigestSize(truth.hash));
    }
  }

  /** One by one: every aligned value of an accepted quote is the quoted one. */
  lemma QuoteBindsAligned(h: Hash, ver: Verifier, q: Quote, key: PublicKey, extraData: Bytes, truth: PCRs, i: nat)
    requires VerifyQuote(h, ver, q, key, extraData).None?
    requires QuotedOver(h, HashOf(q), q.attest, truth)
    requires Aligned(q.pcrs.pcrs, i, DigestSize(q.pcrs.hash))
    ensures q.pcrs.hash == truth.hash && q.pcrs.pcrs.Keys == truth.pcrs.Keys
    ensures || q.pcrs.pcrs[i] == truth.pcrs[i]
            || Collision(h, HashOf(q), Concat(q.pcrs.pcrs, NUM_PCRS), Concat(truth.pcrs, NUM_PCRS))
  {
    AcceptedQuote(h, ver, q, key, extraData);
    SameSelectionDomain(q.pcrs, q.attest.quoteInfo.value.selection);
    AlignedBinds(h, HashOf(q), q.pcrs.pcrs, truth.pcrs, i, DigestSize(truth.hash));
  }

  /** No more is bound than which PCRs are listed and what their values concatenate to. */
  lemma OnlyConcatCounts(h: Hash, ver: Verifier, q: Quote, key: PublicKey, extraData: Bytes, p: map<nat, Bytes>)
    requires VerifyQuote(h, ver, q, key, extraData).None?
    requires p.Keys == q.pcrs.pcrs.Keys && Concat(p, NUM_PCRS) == Concat(q.pcrs.pcrs, NUM_PCRS)
    ensures VerifyQuote(h, ver, q.(pcrs := PCRs(q.pcrs.hash, p)), key, extraData).None?
  {
    assert |p| == |p.Keys| == |q.pcrs.pcrs.Keys| == |q.pcrs.pcrs|;
  }

  /** So any value with quoted ones on both sides can be replaced by any other one of a window around it. */
  lemma LengthsUnbound(h: Hash, ver: Verifier, q: Quote, key: PublicKey, extraData: Bytes, lo: nat, i: nat, hi: nat,
                       m: nat)
    requires VerifyQuote(h, ver, q, key, extraData).None?
    requires lo < i < hi < NUM_PCRS && lo <= m <= hi
    requires lo in q.pcrs.pcrs && i in q.pcrs.pcrs && hi in q.pcrs.pcrs && m in q.pcrs.pcrs
    ensures var p := Regrouped(q.pcrs.pcrs, lo, i, hi, m);
            && p.Keys == q.pcrs.pcrs.Keys && p[i] == q.pcrs.pcrs[m]
            && (forall j | j in p && (j < lo || j > hi) :: p[j] == q.pcrs.pcrs[j])
            && VerifyQuote(h, ver, q.(pcrs := PCRs(q.pcrs.hash, p)), key, extraData).None?
  {
    RegroupedShows(q.pcrs.pcrs, lo, i, hi, m);
    OnlyConcatCounts(h, ver, q, key, extraData, Regrouped(q.pcrs.pcrs, lo, i, hi, m));
  }

  lemma {:induction false} ConcatIgnoresHigh(p: map<nat, Bytes>, i: nat, v: Bytes, n: nat)
    requires n <= i
    ensures Concat(p[i := v], n) == Concat(p, n)
  {
    if n > 0 {
      ConcatIgnoresHigh(p, i, v, n - 1);
    }
  }

  /** Indexes from 24 up are not bound at all: any value there is accepted. */
  lemma HighIndexUnbound(h: Hash, ver: Verifier, q: Quote, key: PublicKey, extraData: Bytes, i: nat, v: Bytes)
    requires VerifyQuote(h, ver, q, key, extraData).None? && i in q.pcrs.pcrs && i >= NUM_PCRS
    ensures VerifyQuote(h, ver, q.(pcrs := PCRs(q.pcrs.hash, q.pcrs.pcrs[i := v])), key, extraData).None?
  {
    ConcatIgnoresHigh(q.pcrs.pcrs, i, v, NUM_PCRS);
    assert q.pcrs.pcrs[i := v].Keys == q.pcrs.pcrs.Keys;
    OnlyConcatCounts(h, ver, q, key, extraData, q.pcrs.pcrs[i := v]);
  }

  // ----- Taking a quote

  datatype SigningKey = SigningKey(pub: PublicKey, scheme: Scheme, signHash: Option<HashAlg>, restricted: bool)

  datatype QuoteFailure = NotASigningKey | Unrestricted | Device(seal: SealError) | Rejected(reason: QuoteError)

  /** The key's scheme is one that quote verification supports, and the TPM's signatures with it verify. */
  ghost predicate HonestSigner(ver: Verifier, k: SigningKey, sign: Attest -> Bytes) {
    && k.signHash.Some? && k.signHash.value in SIGNATURE_HASH_ALGS
    && (k.pub.EcdsaKey? ==> k.scheme == Ecdsa) && (k.pub.RsaKey? ==> k.scheme == Rsassa) && !k.pub.OtherKey?
    && forall a :: ver(k.pub, k.signHash.value, a, sign(a))
  }

  /** TPM2_Quote (section 18.4 of TPM 2.0 Library Part 3): signs a digest of the selected PCRs as they are now. */
  method TpmQuote(tpm: Tpm, a: HashAlg, sel: Selection, extraData: Bytes) returns (r: Result<Attest, ErrorCode>)
    requires tpm.Valid()
    modifies tpm`clock, tpm`banks, tpm`pcrCounter, tpm`created
    ensures tpm.Valid() && tpm.clock >= old(tpm.clock)
    ensures r.Ok? ==>
              && Readable(tpm.banks, sel) && QuotedOver(tpm.h, a, r.value, PCRs(sel.hash, Values(tpm.banks, sel)))
              && r.value.isQuote && r.value.extraData == extraData
    ensures old(tpm.Quiet()) ==> tpm.Quiet() && tpm.banks == old(tpm.banks) && (r.Ok? <==> Readable(tpm.banks, sel))
  {
    var values := tpm.PcrRead(sel);
    if values.Err? {
      return Err(values.error);
    }
    ValuesAreBlocks(tpm.banks, sel);
    var selected := SelectionOf(PCRs(sel.hash, values.value));
    return Ok(Attest(true, extraData, Some(QuoteInfo(selected, DigestOf(tpm.h, a, values.value)))));
  }

  /** Quotes, then reads the quoted PCRs in chunks, then verifies. However others interfere in between, success
      means that the returned values are those of the quote, which all held at one moment of the call. */
  method TakeQuote(tpm: Tpm, ver: Verifier, k: SigningKey, sel: Selection, extraData: Bytes, sign: Attest -> Bytes)
    returns (r: Result<Quote, QuoteFailure>, ghost t: nat)
    requires tpm.Valid()
    modifies tpm`clock, tpm`banks, tpm`pcrCounter, tpm`created
    ensures tpm.Valid() && old(tpm.clock) <= t <= tpm.clock
    ensures r.Ok? ==>
              && k.restricted && k.signHash.Some? && VerifyQuote(tpm.h, ver, r.value, k.pub, extraData).None?
              && Readable(tpm.At(t), sel)
              && (|| r.value.pcrs == PCRs(sel.hash, Values(tpm.At(t), sel))
                  || Collision(tpm.h, k.signHash.value, Concat(r.value.pcrs.pcrs, NUM_PCRS),
                               Concat(Values(tpm.At(t), sel), NUM_PCRS)))
    ensures old(tpm.Quiet()) && HonestSigner(ver, k, sign) ==>
              (r.Ok? <==> k.restricted && Readable(old(tpm.banks), sel))
  {
    t := tpm.clock;
    if k.signHash.None? {
      r := Err(NotASigningKey);
      return;
    }
    if !k.restricted {
      r := Err(Unrestricted);
      return;
    }
    var attest := TpmQuote(tpm, k.signHash.value, sel, extraData);
    t := tpm.clock;
    if attest.Err? {
      r := Err(Device(Tpm(attest.error)));
      return;
    }
    r := FinishQuote(tpm, ver, k, sel, extraData, sign, attest.value, tpm.banks);
  }

  /** The quote of a signed attestation and the values that were read after it. */
  function Assemble(k: SigningKey, a: HashAlg, attest: Attest, signature: Bytes, pcrs: PCRs): Quote {
    Quote(attest, Some(Signature(k.scheme, if k.scheme == Ecdsa then EccPart(a) else RsaPart(a), signature)), pcrs)
  }

  /** Reads the quoted PCRs, and verifies. */
  method FinishQuote(tpm: Tpm, ver: Verifier, k: SigningKey, sel: Selection, extraData: Bytes, sign: Attest -> Bytes,
                     attest: Attest, ghost b: Banks) returns (r: Result<Quote, QuoteFailure>)
    requires tpm.Valid() && k.signHash.Some? && Readable(b, sel)
    requires QuotedOver(tpm.h, k.signHash.value, attest, PCRs(sel.hash, Values(b, sel)))
    requires attest.isQuote && attest.extraData == extraData
    modifies tpm`clock, tpm`banks, tpm`pcrCounter, tpm`created
    ensures tpm.Valid() && old(tpm.clock) <= tpm.clock
    ensures r.Ok? ==>
              && VerifyQuote(tpm.h, ver, r.value, k.pub, extraData).None?
              && (|| r.value.pcrs == PCRs(sel.hash, Values(b, sel))
                  || Collision(tpm.h, k.signHash.value, Concat(r.value.pcrs.pcrs, NUM_PCRS),
                               Concat(Values(b, sel), NUM_PCRS)))
    ensures old(tpm.Quiet()) && old(tpm.banks) == b && HonestSigner(ver, k, sign) ==> r.Ok?
  {
    var pcrs := ReadPCRs(tpm, sel);
    if pcrs.Err? {
      return Err(Device(pcrs.error));
    }
    var q := Assemble(k, k.signHash.value, attest, sign(attest), pcrs.value);
    if old(tpm.Quiet()) && old(tpm.banks) == b && HonestSigner(ver, k, sign) {
      HonestQuote(tpm.h, ver, k, sel, extraData, sign, attest, pcrs.value, b);
    }
    var bad := VerifyQuote(tpm.h, ver, q, k.pub, extraData);
    if bad.Some? {
      return Err(Rejected(bad.value));
    }
    assert HashOf(q) == k.signHash.value by {
      AcceptedQuote(tpm.h, ver, q, k.pub, extraData);
    }
    QuoteUniqueness(tpm.h, ver, q, k.pub, extraData, PCRs(sel.hash, Values(b, sel)));
    return Ok(q);
  }

  /** An honestly signed quote with the quoted values is accepted. */
  lemma HonestQuote(h: Hash, ver: Verifier, k: SigningKey, sel: Selection, extraData: Bytes, sign: Attest -> Bytes,
                    attest: Attest, pcrs: PCRs, b: Banks)
    requires HonestSigner(ver, k, sign) && Readable(b, sel)
    requires QuotedOver(h, k.signHash.value, attest, PCRs(sel.hash, Values(b, sel)))
    requires attest.isQuote && attest.extraData == extraData
    requires pcrs.hash == sel.hash && pcrs.pcrs.Keys == Elements(sel.pcrs)
    requires CurrentValues(pcrs.pcrs, sel.hash, sel.pcrs, b)
    ensures VerifyQuote(h, ver, Assemble(k, k.signHash.value, attest, sign(attest), pcrs), k.pub, extraData).None?
  {
    QuietReading(pcrs.pcrs, sel, b, attest.quoteInfo.value.selection);
  }

  /** An undisturbed reading agrees with the quote. */
  lemma QuietReading(pcrs: map<nat, Bytes>, sel: Selection, b: Banks, quoted: Selection)
    requires Readable(b, sel) && pcrs.Keys == Elements(sel.pcrs) && CurrentValues(pcrs, sel.hash, sel.pcrs, b)
    requires Distinct(quoted.pcrs) && Elements(quoted.pcrs) == pcrs.Keys && quoted.hash == sel.hash
    ensures pcrs == Values(b, sel) && SameSelection(PCRs(sel.hash, pcrs), quoted)
  {
    if sel.pcrs != [] {
      CurrentIsValues(pcrs, sel, b);
    }
    SameSelectionDomain(PCRs(sel.hash, pcrs), quoted);
  }
}
