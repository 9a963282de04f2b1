/** Verifying an attestation: a search over its quotes in order of hash preference, and the reuse of the result
    to pick the PCR bank against which the COS event log is replayed. */
module Attestations {
  import opened Basics
  import opened Hashing
  import opened PcrSelection
  import opened CosLog
  import opened Quotes

  datatype Attestation = Attestation(akPub: Option<PublicKey>, akCert: Bytes, intermediates: seq<Bytes>,
                                     quotes: seq<Quote>, eventLog: Bytes, cel: seq<Record>)

  /** `hashAlgo` is a TPM algorithm identifier; zero asks for the most preferred bank that passes. */
  datatype VerifyOpts = VerifyOpts(nonce: Bytes, trustedAKs: seq<PublicKey>, trustedRoots: seq<Bytes>,
                                   intermediates: seq<Bytes>, allowSha1: bool, hashAlgo: nat)

  /** What verification returns; `firmware` stands for all the fields read from the firmware event log. */
  datatype MachineState = MachineState(instanceInfo: Option<Bytes>, firmware: Bytes, hash: HashAlg)

  datatype VerifyError =
    | NoTrustMechanism
    | TwoTrustMechanisms
    | BadAkPub
    | KeyNotTrusted
    | BadAkCert
    | UnsupportedAlgo
    | BadQuote(reason: QuoteError)
    | BadEventLog
    | Sha1NotAllowed
    | NoSupportedQuote

  /** The code outside this model: hashing, signatures, replay of the firmware event log against PCR values, and
      certificate chains, the last giving the certified key and the instance information. */
  datatype Outside = Outside(
    h: Hash,
    ver: Verifier,
    parse: (Bytes, PCRs) -> Option<MachineState>,
    checkCert: (Bytes, seq<Bytes>, seq<Bytes>) -> Option<(PublicKey, Option<Bytes>)>)

  /** Replay works on one known bank and its result names that bank. */
  ghost predicate CarriesHash(w: Outside) {
    forall log, p :: w.parse(log, p).Some? ==> w.parse(log, p).value.hash == p.hash != NoAlg
  }

  /** Hash algorithms of PCR banks, in order of preference. */
  const PCR_HASH_ALGS: seq<HashAlg> := SIGNATURE_HASH_ALGS + [SHA1]

  function ValidateOpts(opts: VerifyOpts): Option<VerifyError> {
    if opts.trustedAKs == [] && opts.trustedRoots == [] then Some(NoTrustMechanism)
    else if opts.trustedAKs != [] && opts.trustedRoots != [] then Some(TwoTrustMechanisms)
    else None
  }

  function ValidateAK(w: Outside, att: Attestation, opts: VerifyOpts): Result<(MachineState, PublicKey), VerifyError> {
    if att.akCert == [] || opts.trustedRoots == [] then
      if att.akPub.None? then Err(BadAkPub)
      else if att.akPub.value !in opts.trustedAKs then Err(KeyNotTrusted)
      else Ok((MachineState(None, [], NoAlg), att.akPub.value))
    else
      var cert := w.checkCert(att.akCert, opts.intermediates + att.intermediates, opts.trustedRoots);
      if cert.None? then Err(BadAkCert) else Ok((MachineState(cert.value.1, [], NoAlg), cert.value.0))
  }

  /** The algorithm with a TPM identifier, if it is a known one. */
  function AlgNamed(id: nat): HashAlg {
    if id == 0x4 then SHA1 else if id == 0xB then SHA256 else if id == 0xC then SHA384 else if id == 0xD then SHA512
    else NoAlg
  }

  function Algos(opts: VerifyOpts): seq<HashAlg> {
    if opts.hashAlgo != 0 then [AlgNamed(opts.hashAlgo)] else PCR_HASH_ALGS
  }

  /** Protocol buffer merge: set fields of `b` win. */
  function Merge(a: MachineState, b: MachineState): MachineState {
    MachineState(if b.instanceInfo.Some? then b.instanceInfo else a.instanceInfo,
                 if b.firmware != [] then b.firmware else a.firmware,
                 if b.hash != NoAlg then b.hash else a.hash)
  }

  // ----- Selecting quotes

  /** The first quote over bank `a`. */
  function First(quotes: seq<Quote>, a: HashAlg): (r: Option<Quote>)
    ensures r.Some? ==> r.value in quotes && r.value.pcrs.hash == a
    ensures r.None? <==> forall q <- quotes :: q.pcrs.hash != a
  {
    if quotes == [] then None
    else if quotes[0].pcrs.hash == a then Some(quotes[0])
    else First(quotes[1..], a)
  }

  function Preferred(quotes: seq<Quote>, algs: seq<HashAlg>): seq<Quote> {
    if algs == [] then []
    else
      var q := First(quotes, algs[|algs| - 1]);
      Preferred(quotes, algs[..|algs| - 1]) + if q.Some? then [q.value] else []
  }

  method SupportedQuotes(quotes: seq<Quote>, algs: seq<HashAlg>) returns (out: seq<Quote>)
    ensures out == Preferred(quotes, algs)
  {
    out := [];
    for i := 0 to |algs|
      invariant out == Preferred(quotes, algs[..i])
    {
      assert algs[..i + 1][..i] == algs[..i];
      ghost var before := out;
      for j := 0 to |quotes|
        invariant out == before && First(quotes, algs[i]) == First(quotes[j..], algs[i])
      {
        if quotes[j].pcrs.hash == algs[i] {
          out := out + [quotes[j]];
          break;
        }
      }
    }
    assert algs[..|algs|] == algs;
  }

  // ----- The search

  /** What one quote is worth. The SHA-1 check comes last. */
  function Judge(w: Outside, att: Attestation, opts: VerifyOpts, key: PublicKey,
                 q: Quote): Result<MachineState, VerifyError> {
    var bad := VerifyQuote(w.h, w.ver, q, key, opts.nonce);
    if bad.Some? then Err(BadQuote(bad.value))
    else
      var ms := w.parse(att.eventLog, q.pcrs);
      if ms.None? then Err(BadEventLog)
      else if !opts.allowSha1 && q.pcrs.hash == SHA1 then Err(Sha1NotAllowed)
      else Ok(ms.value)
  }

  /** The first quote that passes, or the last error. */
  function Search(w: Outside, att: Attestation, opts: VerifyOpts, key: PublicKey, qs: seq<Quote>,
                  lastErr: Option<VerifyError>)
    : Result<MachineState, VerifyError>
  {
    if qs == [] then Err(if lastErr.Some? then lastErr.value else NoSupportedQuote)
    else
      var j := Judge(w, att, opts, key, qs[0]);
      if j.Ok? then j else Search(w, att, opts, key, qs[1..], Some(j.error))
  }

  /** The checks before any quote is looked at. */
  function Prepared(w: Outside, att: Attestation, opts: VerifyOpts): Result<(MachineState, PublicKey), VerifyError> {
    if ValidateOpts(opts).Some? then Err(ValidateOpts(opts).value)
    else if ValidateAK(w, att, opts).Err? then ValidateAK(w, att, opts)
    else if opts.hashAlgo != 0 && AlgNamed(opts.hashAlgo) !in PCR_HASH_ALGS then Err(UnsupportedAlgo)
    else ValidateAK(w, att, opts)
  }

  function Outcome(w: Outside, att: Attestation, opts: VerifyOpts): Result<MachineState, VerifyError> {
    var ak := Prepared(w, att, opts);
    if ak.Err? then Err(ak.error)
    else
      var ms := SearchAlgs(w, att, opts, ak.value.1, Algos(opts));
      if ms.Ok? then Ok(Merge(ak.value.0, ms.value)) else ms
  }

  method VerifyAttestation(w: Outside, att: Attestation, opts: VerifyOpts)
     returns (r: Result<MachineState, VerifyError>)
    ensures r == Outcome(w, att, opts)
  {
    var bad := ValidateOpts(opts);
    if bad.Some? {
      return Err(bad.value);
    }
    var ak := ValidateAK(w, att, opts);
    if ak.Err? {
      return Err(ak.error);
    }
    if opts.hashAlgo != 0 && AlgNamed(opts.hashAlgo) !in PCR_HASH_ALGS {
      return Err(UnsupportedAlgo);
    }
    var machineState, key := ak.value.0, ak.value.1;
    var lastErr: Option<VerifyError> := None;
    var quotes := SupportedQuotes(att.quotes, Algos(opts));
    for i := 0 to |quotes|
      invariant Search(w, att, opts, key, quotes, None) == Search(w, att, opts, key, quotes[i..], lastErr)
    {
      var q := quotes[i];
      var badQuote := VerifyQuote(w.h, w.ver, q, key, opts.nonce);
      if badQuote.Some? {
        lastErr := Some(BadQuote(badQuote.value));
        continue;
      }
      var tpmState := w.parse(att.eventLog, q.pcrs);
      if tpmState.None? {
        lastErr := Some(BadEventLog);
        continue;
      }
      if !opts.allowSha1 && q.pcrs.hash == SHA1 {
        lastErr := Some(Sha1NotAllowed);
        continue;
      }
      return Ok(Merge(machineState, tpmState.value));
    }
    r := Err(if lastErr.Some? then lastErr.value else NoSupportedQuote);
  }

  // ----- What the search finds

  /** Some quote of bank `a` passes: the first one verifies, replays, and is allowed. */
  predicate Usable(w: Outside, att: Attestation, opts: VerifyOpts, key: PublicKey, a: HashAlg) {
    var q := First(att.quotes, a);
    && q.Some?
    && VerifyQuote(w.h, w.ver, q.value, key, opts.nonce).None?
    && w.parse(att.eventLog, q.value.pcrs).Some?
    && (a == SHA1 ==> opts.allowSha1)
  }

  /** `algs[k]` is the most preferred usable bank. */
  ghost predicate Best(w: Outside, att: Attestation, opts: VerifyOpts, key: PublicKey, algs: seq<HashAlg>, k: nat) {
    && k < |algs| && Usable(w, att, opts, key, algs[k])
    && forall j | 0 <= j < k :: !Usable(w, att, opts, key, algs[j])
  }

  lemma {:induction false} SearchSnoc(w: Outside, att: Attestation, opts: VerifyOpts, key: PublicKey,
                                      qs: seq<Quote>, q: Quote, lastErr: Option<VerifyError>)
    ensures var r := Search(w, att, opts, key, qs, lastErr);
            Search(w, att, opts, key, qs + [q], lastErr) == if r.Ok? then r else Judge(w, att, opts, key, q)
  {
    if qs == [] {
      assert (qs + [q])[1..] == [];
    } else {
      var j := Judge(w, att, opts, key, qs[0]);
      assert (qs + [q])[1..] == qs[1..] + [q];
      if j.Err? {
        SearchSnoc(w, att, opts, key, qs[1..], q, Some(j.error));
      }
    }
  }

  function SearchAlgs(w: Outside, att: Attestation, opts: VerifyOpts, key: PublicKey, algs: seq<HashAlg>)
    : Result<MachineState, VerifyError>
  {
    Search(w, att, opts, key, Preferred(att.quotes, algs), None)
  }

  lemma SearchAlgsSnoc(w: Outside, att: Attestation, opts: VerifyOpts, key: PublicKey, algs: seq<HashAlg>, a: HashAlg)
    ensures var r, q := SearchAlgs(w, att, opts, key, algs), First(att.quotes, a);
            SearchAlgs(w, att, opts, key, algs + [a])
            == if r.Ok? || q.None? then r else Judge(w, att, opts, key, q.value)
  {
    assert (algs + [a])[..|algs|] == algs;
    var qs, q := Preferred(att.quotes, algs), First(att.quotes, a);
    if q.Some? {
      SearchSnoc(w, att, opts, key, qs, q.value, None);
    } else {
      assert qs + [] == qs;
    }
  }

  /** The search over the selected quotes returns the state of the best bank, and fails only if there is none. */
  lemma {:induction false} SearchFindsBest(w: Outside, att: Attestation, opts: VerifyOpts, key: PublicKey,
                                           algs: seq<HashAlg>)
    returns (k: nat)
    ensures var r := SearchAlgs(w, att, opts, key, algs);
            if r.Ok? then
              && Best(w, att, opts, key, algs, k)
              && r.value == w.parse(att.eventLog, First(att.quotes, algs[k]).value.pcrs).value
            else
              forall j | 0 <= j < |algs| :: !Usable(w, att, opts, key, algs[j])
  {
    k := 0;
    if algs != [] {
      var front, a := algs[..|algs| - 1], algs[|algs| - 1];
      assert algs == front + [a];
      k := SearchFindsBest(w, att, opts, key, front);
      SearchAlgsSnoc(w, att, opts, key, front, a);
      if SearchAlgs(w, att, opts, key, front).Err? {
        k := |front|;
      }
    }
  }

  /** The caller trusts `key`: either it lists the very key that comes with the attestation, or it lists roots under
      which the certificate that comes with the attestation certifies `key`, with `info` about the instance. */
  predicate Trusts(w: Outside, att: Attestation, opts: VerifyOpts, key: PublicKey, info: Option<Bytes>) {
    || (opts.trustedRoots == [] && key in opts.trustedAKs && att.akPub == Some(key) && info == None)
    || (&& opts.trustedAKs == [] && opts.trustedRoots != [] && att.akCert != []
        && w.checkCert(att.akCert, opts.intermediates + att.intermediates, opts.trustedRoots) == Some((key, info)))
  }

  /** The caller accepts bank `a`, apart from the SHA-1 rule. */
  predicate Asked(opts: VerifyOpts, a: HashAlg) {
    a != NoAlg && (opts.hashAlgo == 0 || AlgId(a) == opts.hashAlgo)
  }

  /** The banks that are tried are those asked for, the longest digest first. */
  lemma AlgosExact(opts: VerifyOpts)
    requires opts.hashAlgo == 0 || AlgNamed(opts.hashAlgo) in PCR_HASH_ALGS
    ensures forall a :: a in Algos(opts) <==> Asked(opts, a)
    ensures forall i, j | 0 <= i < j < |Algos(opts)| :: DigestSize(Algos(opts)[i]) > DigestSize(Algos(opts)[j])
  {
    if opts.hashAlgo == 0 {
      assert Algos(opts) == [SHA512, SHA384, SHA256, SHA1];
    }
  }

  lemma SomeAsked(opts: VerifyOpts)
    ensures (exists a :: Asked(opts, a)) <==> opts.hashAlgo == 0 || AlgNamed(opts.hashAlgo) in PCR_HASH_ALGS
  {
    assert Asked(opts, if opts.hashAlgo == 0 then SHA256 else AlgNamed(opts.hashAlgo))
           <==> opts.hashAlgo == 0 || AlgNamed(opts.hashAlgo) in PCR_HASH_ALGS;
  }

  lemma TrustExact(w: Outside, att: Attestation, opts: VerifyOpts, key: PublicKey, info: Option<Bytes>)
    ensures Trusts(w, att, opts, key, info) <==>
            ValidateOpts(opts).None? && ValidateAK(w, att, opts) == Ok((MachineState(info, [], NoAlg), key))
  {
  }

  /** A successful verification rests on a trusted key and on the first quote over the bank with the longest digest
      among the usable banks asked for; the result names that bank, is what the firmware log replays to, and holds the
      certificate's instance information. SHA-1 is used only if allowed. */
  lemma MostPreferred(w: Outside, att: Attestation, opts: VerifyOpts) returns (key: PublicKey, info: Option<Bytes>)
    requires CarriesHash(w)
    requires Outcome(w, att, opts).Ok?
    ensures Trusts(w, att, opts, key, info)
    ensures var ms := Outcome(w, att, opts).value;
            && Asked(opts, ms.hash) && Usable(w, att, opts, key, ms.hash)
            && (forall a | Asked(opts, a) && Usable(w, att, opts, key, a) :: DigestSize(a) <= DigestSize(ms.hash))
            && var replayed := w.parse(att.eventLog, First(att.quotes, ms.hash).value.pcrs).value;
            && ms.firmware == replayed.firmware
            && ms.instanceInfo == if replayed.instanceInfo.Some? then replayed.instanceInfo else info
  {
    key, info := ValidateAK(w, att, opts).value.1, ValidateAK(w, att, opts).value.0.instanceInfo;
    TrustExact(w, att, opts, key, info);
    AlgosExact(opts);
    var algs := Algos(opts);
    var k := SearchFindsBest(w, att, opts, key, algs);
    forall a | Asked(opts, a) && Usable(w, att, opts, key, a) ensures DigestSize(a) <= DigestSize(algs[k]) {
      var j :| 0 <= j < |algs| && algs[j] == a;
    }
  }

  /** When verification succeeds, for all options and attestations. */
  lemma SucceedsExactly(w: Outside, att: Attestation, opts: VerifyOpts)
    ensures Outcome(w, att, opts).Ok? <==>
            exists key, info :: Trusts(w, att, opts, key, info) && Passes(w, att, opts, key)
  {
    var trusted := ValidateOpts(opts).None? && ValidateAK(w, att, opts).Ok?;
    if trusted {
      var key, info := ValidateAK(w, att, opts).value.1, ValidateAK(w, att, opts).value.0.instanceInfo;
      TrustExact(w, att, opts, key, info);
      PassesExactly(w, att, opts, key);
    }
    forall key, info | Trusts(w, att, opts, key, info)
      ensures trusted && ValidateAK(w, att, opts).value.1 == key
    {
      TrustExact(w, att, opts, key, info);
    }
  }

  /** Some bank that was asked for is usable with a key. */
  predicate Passes(w: Outside, att: Attestation, opts: VerifyOpts, key: PublicKey) {
    exists a :: Asked(opts, a) && Usable(w, att, opts, key, a)
  }

  lemma PassesExactly(w: Outside, att: Attestation, opts: VerifyOpts, key: PublicKey)
    ensures Passes(w, att, opts, key) <==>
            && (opts.hashAlgo == 0 || AlgNamed(opts.hashAlgo) in PCR_HASH_ALGS)
            && SearchAlgs(w, att, opts, key, Algos(opts)).Ok?
  {
    var algs := Algos(opts);
    if opts.hashAlgo == 0 || AlgNamed(opts.hashAlgo) in PCR_HASH_ALGS {
      AlgosExact(opts);
      var k := SearchFindsBest(w, att, opts, key, algs);
      if SearchAlgs(w, att, opts, key, algs).Ok? {
        assert Asked(opts, algs[k]) && Usable(w, att, opts, key, algs[k]);
      }
    }
  }

  // ----- Why verification fails

  /** The last bank that has a quote decides the error. */
  lemma {:induction false} LastError(w: Outside, att: Attestation, opts: VerifyOpts, key: PublicKey, algs: seq<HashAlg>)
    returns (k: nat)
    ensures var r := SearchAlgs(w, att, opts, key, algs);
            r.Err? ==>
              if forall a <- algs :: First(att.quotes, a).None? then r.error == NoSupportedQuote
              else
                && k < |algs| && First(att.quotes, algs[k]).Some?
                && (forall j | k < j < |algs| :: First(att.quotes, algs[j]).None?)
                && r == Judge(w, att, opts, key, First(att.quotes, algs[k]).value)
  {
    k := 0;
    if algs != [] {
      var front, a := algs[..|algs| - 1], algs[|algs| - 1];
      assert algs == front + [a];
      k := LastError(w, att, opts, key, front);
      SearchAlgsSnoc(w, att, opts, key, front, a);
      if First(att.quotes, a).Some? {
        k := |front|;
      }
    }
  }

  /** No quote over a bank that was asked for. */
  predicate NoQuote(att: Attestation, opts: VerifyOpts) {
    forall q <- att.quotes :: !Asked(opts, q.pcrs.hash)
  }

  /** The errors before any quote is looked at, one by one: the options, the key, the certificate, the algorithm. */
  lemma EarlyErrors(w: Outside, att: Attestation, opts: VerifyOpts)
    ensures var r := Outcome(w, att, opts);
            var one := (opts.trustedAKs == []) != (opts.trustedRoots == []);
            var byKey := opts.trustedRoots == [] || att.akCert == [];
            var trusted := exists key, info :: Trusts(w, att, opts, key, info);
            && (r == Err(NoTrustMechanism) <==> opts.trustedAKs == [] && opts.trustedRoots == [])
            && (r == Err(TwoTrustMechanisms) <==> opts.trustedAKs != [] && opts.trustedRoots != [])
            && (r == Err(BadAkPub) <==> one && byKey && att.akPub.None?)
            && (r == Err(KeyNotTrusted) <==> one && byKey && att.akPub.Some? && att.akPub.value !in opts.trustedAKs)
            && (r == Err(BadAkCert) <==>
                  && one && !byKey
                  && w.checkCert(att.akCert, opts.intermediates + att.intermediates, opts.trustedRoots).None?)
            && (r == Err(UnsupportedAlgo) <==> trusted && forall a :: !Asked(opts, a))
  {
    var ak := ValidateAK(w, att, opts);
    if exists key, info :: Trusts(w, att, opts, key, info) {
      var key, info :| Trusts(w, att, opts, key, info);
      TrustExact(w, att, opts, key, info);
    }
    if ValidateOpts(opts).None? && ak.Ok? {
      TrustExact(w, att, opts, ak.value.1, ak.value.0.instanceInfo);
      var _ := LastError(w, att, opts, ak.value.1, Algos(opts));
      SomeAsked(opts);
    }
  }

  /** The errors of the quotes: the least preferred bank with a quote decides, and the SHA-1 rule comes last. */
  lemma LateErrors(w: Outside, att: Attestation, opts: VerifyOpts, key: PublicKey, info: Option<Bytes>)
    returns (q: Quote)
    requires Trusts(w, att, opts, key, info) && Outcome(w, att, opts).Err? && exists a :: Asked(opts, a)
    ensures Outcome(w, att, opts).error == NoSupportedQuote <==> NoQuote(att, opts)
    ensures !NoQuote(att, opts) ==>
              && Asked(opts, q.pcrs.hash) && First(att.quotes, q.pcrs.hash) == Some(q)
              && (forall p <- att.quotes | Asked(opts, p.pcrs.hash) ::
                    DigestSize(p.pcrs.hash) >= DigestSize(q.pcrs.hash))
              && Outcome(w, att, opts).error ==
                 var bad := VerifyQuote(w.h, w.ver, q, key, opts.nonce);
                 if bad.Some? then BadQuote(bad.value)
                 else if w.parse(att.eventLog, q.pcrs).None? then BadEventLog
                 else Sha1NotAllowed
  {
    TrustExact(w, att, opts, key, info);
    AlgosExact(opts);
    var algs := Algos(opts);
    var k := LastError(w, att, opts, key, algs);
    q := Quote(Malformed([]), None, PCRs(NoAlg, map[]));
    if NoQuote(att, opts) {
      assert forall a <- algs :: First(att.quotes, a).None?;
    } else {
      var p :| p in att.quotes && Asked(opts, p.pcrs.hash);
      assert p.pcrs.hash in algs && First(att.quotes, p.pcrs.hash).Some?;
      q := First(att.quotes, algs[k]).value;
      forall p <- att.quotes | Asked(opts, p.pcrs.hash) ensures DigestSize(p.pcrs.hash) >= DigestSize(q.pcrs.hash) {
        var j :| 0 <= j < |algs| && algs[j] == p.pcrs.hash;
        assert First(att.quotes, algs[j]).Some?;
      }
    }
  }

  // ----- The SHA-1 error

  lemma {:induction false} NoSha1SameSearch(w: Outside, att: Attestation, opts: VerifyOpts, key: PublicKey,
                                            algs: seq<HashAlg>)
    requires SHA1 !in algs
    ensures SearchAlgs(w, att, opts, key, algs) == SearchAlgs(w, att, opts.(allowSha1 := true), key, algs)
    ensures SearchAlgs(w, att, opts, key, algs) != Err(Sha1NotAllowed)
  {
    if algs != [] {
      var front, a := algs[..|algs| - 1], algs[|algs| - 1];
      assert algs == front + [a];
      NoSha1SameSearch(w, att, opts, key, front);
      SearchAlgsSnoc(w, att, opts, key, front, a);
      SearchAlgsSnoc(w, att, opts.(allowSha1 := true), key, front, a);
    }
  }

  lemma Sha1SearchExact(w: Outside, att: Attestation, opts: VerifyOpts, key: PublicKey, front: seq<HashAlg>, a: HashAlg)
    requires SHA1 !in front
    ensures var r := SearchAlgs(w, att, opts, key, front + [a]);
            r == Err(Sha1NotAllowed) <==> r.Err? && SearchAlgs(w, att, opts.(allowSha1 := true), key, front + [a]).Ok?
  {
    NoSha1SameSearch(w, att, opts, key, front);
    SearchAlgsSnoc(w, att, opts, key, front, a);
    SearchAlgsSnoc(w, att, opts.(allowSha1 := true), key, front, a);
  }

  lemma Sha1IsLast(opts: VerifyOpts) returns (front: seq<HashAlg>, a: HashAlg)
    ensures Algos(opts) == front + [a] && SHA1 !in front
  {
    front := if opts.hashAlgo == 0 then SIGNATURE_HASH_ALGS else [];
    a := if opts.hashAlgo == 0 then SHA1 else AlgNamed(opts.hashAlgo);
  }

  /** Allowing SHA-1 changes nothing before the quotes, and no check there gives the SHA-1 error. */
  lemma PreparedSame(w: Outside, att: Attestation, opts: VerifyOpts)
    ensures Prepared(w, att, opts) == Prepared(w, att, opts.(allowSha1 := true)) != Err(Sha1NotAllowed)
    ensures Algos(opts) == Algos(opts.(allowSha1 := true))
  {
  }

  /** The SHA-1 error is reported exactly when verification fails but would succeed with SHA-1 allowed. */
  lemma Sha1ErrorExact(w: Outside, att: Attestation, opts: VerifyOpts)
    ensures Outcome(w, att, opts) == Err(Sha1NotAllowed) <==>
            Outcome(w, att, opts).Err? && Outcome(w, att, opts.(allowSha1 := true)).Ok?
  {
    PreparedSame(w, att, opts);
    var ak := Prepared(w, att, opts);
    if ak.Ok? {
      var front, a := Sha1IsLast(opts);
      Sha1SearchExact(w, att, opts, ak.value.1, front, a);
    }
  }

  // ----- The bank for the COS event log

  method ExtractPCRBank(quotes: seq<Quote>, a: HashAlg) returns (r: Option<MrBank>)
    ensures r.Some? <==> a != NoAlg && First(quotes, a).Some?
    ensures r.Some? ==> r.value == MrBank(a, First(quotes, a).value.pcrs.pcrs)
  {
    for i := 0 to |quotes|
      invariant First(quotes, a) == First(quotes[i..], a)
    {
      if quotes[i].pcrs.hash == a {
        return if a == NoAlg then None else Some(MrBank(a, quotes[i].pcrs.pcrs));
      }
    }
    r := None;
  }

  datatype ServiceError = NoAk | NotVerified(e: VerifyError) | NoBank | BadCosLog(log: LogError)

  /** The service trusts the key that comes with the attestation. */
  function ServiceOpts(key: PublicKey, nonce: Bytes): VerifyOpts {
    VerifyOpts(nonce, [key], [], [], false, 0)
  }

  predicate Verified(w: Outside, att: Attestation, nonce: Bytes) {
    att.akPub.Some? && Outcome(w, att, ServiceOpts(att.akPub.value, nonce)).Ok?
  }

  function BankOf(q: Quote): MrBank {
    MrBank(q.pcrs.hash, q.pcrs.pcrs)
  }

  /** The verification service for TPM attestations: quotes, firmware log, and COS log. Its last step never fails
      to find a bank, and the bank it finds is that of the very quote that was verified. */
  method VerifyTPM(w: Outside, att: Attestation, nonce: Bytes)
    returns (r: Result<(MachineState, CosState), ServiceError>, ghost q: Quote)
    requires CarriesHash(w)
    ensures Verified(w, att, nonce) ==>
              && q in att.quotes && VerifyQuote(w.h, w.ver, q, att.akPub.value, nonce).None? && q.pcrs.hash != SHA1
              && (r.Ok? <==> AcceptedBy(w.h, att.cel, BankOf(q), PcrType))
    ensures r.Ok? ==> Verified(w, att, nonce) && r.value.0.hash == q.pcrs.hash && r.value.1 == StateOf(Events(att.cel))
    ensures r != Err(NoBank)
  {
    q := Quote(Malformed([]), None, PCRs(NoAlg, map[]));
    if att.akPub.None? {
      r := Err(NoAk);
      return;
    }
    var opts := ServiceOpts(att.akPub.value, nonce);
    var ms := VerifyAttestation(w, att, opts);
    if ms.Err? {
      r := Err(NotVerified(ms.error));
      return;
    }
    ghost var _, _ := MostPreferred(w, att, opts);
    q := First(att.quotes, ms.value.hash).value;
    var bank := ExtractPCRBank(att.quotes, ms.value.hash);
    if bank.None? {
      r := Err(NoBank);
      return;
    }
    var cos := GetCosStateFromCEL(w.h, att.cel, bank.value, PcrType);
    r := if cos.Ok? then Ok((ms.value, cos.value)) else Err(BadCosLog(cos.error));
  }
}
