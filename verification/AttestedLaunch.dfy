/** From launch to verdict: what an accepted attestation says about the launch on the attested machine. */
module AttestedLaunches {
  import opened Basics
  import opened Hashing
  import opened PcrSelection
  import opened Alignment
  import opened CosTlvs
  import opened EnvVars
  import opened CosLog
  import opened Launch
  import opened Runner
  import opened LaunchTheorems
  import opened Quotes
  import opened Attestations

  /** The supplied values below the COS register are together as long as full digests would be. */
  predicate StartsAligned(q: Quote) {
    |Concat(q.pcrs.pcrs, COS_EVENT_PCR)| == Offset(q.pcrs.pcrs.Keys, COS_EVENT_PCR, DigestSize(q.pcrs.hash))
  }

  /** An accepted log fixes the length of the COS register's value, so only its start is left to check. */
  lemma AcceptedAligned(h: Hash, log: seq<Record>, q: Quote)
    requires ProperHash(h) && log != [] && AcceptedBy(h, log, BankOf(q), PcrType)
    ensures COS_EVENT_PCR in q.pcrs.pcrs
    ensures StartsAligned(q) <==> Aligned(q.pcrs.pcrs, COS_EVENT_PCR, DigestSize(q.pcrs.hash))
  {
    AcceptedFold(h, log, BankOf(q), TpmRoot);
    FoldLength(h, q.pcrs.hash, EventDigests(h, q.pcrs.hash, Events(log)));
  }

  /** Suppose the machine launched `x`, extended `later` into the COS register, and then quoted the PCR values
      `truth`. Whatever non-empty log is sent with the quote, and whatever values: if quote and log are accepted and
      the supplied COS value starts where it should, then nothing was extended later and the reported state is that
      of the launch. No other supplied value matters. */
  lemma AttestedLaunch(w: Outside, att: Attestation, nonce: Bytes, q: Quote, truth: PCRs, x: LaunchInput,
                       later: seq<Bytes>)
    requires att.akPub.Some? && VerifyQuote(w.h, w.ver, q, att.akPub.value, nonce).None?
    requires att.cel != [] && AcceptedBy(w.h, att.cel, BankOf(q), PcrType)
    requires QuotedOver(w.h, HashOf(q), q.attest, truth)
    requires StartsAligned(q)
    requires ProperHash(w.h) && Formattable(x.overrideEnvs) && AllMeasurable(LaunchEvents(x))
    requires Sized(later, DigestSize(truth.hash))
    requires COS_EVENT_PCR in truth.pcrs
    requires truth.pcrs[COS_EVENT_PCR]
             == Fold(w.h, truth.hash, Zeros(DigestSize(truth.hash)), EventDigests(w.h, truth.hash, LaunchEvents(x)) + later)
    requires SoundOn(w.h, truth.hash, Messages(w.h, truth.hash, TpmRoot, LaunchEvents(x), later, att.cel))
    requires !Collision(w.h, HashOf(q), Concat(q.pcrs.pcrs, NUM_PCRS), Concat(truth.pcrs, NUM_PCRS))
    ensures later == [] && StateOf(Events(att.cel)) == ExpectedState(x)
  {
    AcceptedAligned(w.h, att.cel, q);
    QuoteBindsAligned(w.h, w.ver, q, att.akPub.value, nonce, truth, COS_EVENT_PCR);
    LaunchFinality(w.h, TpmRoot, x, later, att.cel, BankOf(q));
  }

  /** Whether values of the shape of `p` always show the quoted COS register. */
  ghost predicate ShowsCosRegister(p: PCRs)
    requires COS_EVENT_PCR in p.pcrs
  {
    Binds(p.pcrs, COS_EVENT_PCR, DigestSize(p.hash))
  }

  /** The condition is exact: among the value lengths that come with an accepted quote and an accepted non-empty log,
      those that start the COS value where it should are the ones that always show the quoted register. */
  lemma AlignmentNeeded(h: Hash, ver: Verifier, q: Quote, key: PublicKey, extraData: Bytes, truth: PCRs,
                        log: seq<Record>)
    requires VerifyQuote(h, ver, q, key, extraData).None? && QuotedOver(h, HashOf(q), q.attest, truth)
    requires ProperHash(h) && log != [] && AcceptedBy(h, log, BankOf(q), PcrType) && q.pcrs.hash != NoAlg
    requires !Collision(h, HashOf(q), Concat(q.pcrs.pcrs, NUM_PCRS), Concat(truth.pcrs, NUM_PCRS))
    ensures COS_EVENT_PCR in q.pcrs.pcrs
    ensures StartsAligned(q) <==> ShowsCosRegister(q.pcrs)
  {
    AcceptedAligned(h, log, q);
    AcceptedQuote(h, ver, q, key, extraData);
    SameSelectionDomain(q.pcrs, q.attest.quoteInfo.value.selection);
    BlocksOffset(truth.pcrs, DigestSize(truth.hash), NUM_PCRS);
    AlignmentExact(q.pcrs.pcrs, COS_EVENT_PCR, DigestSize(q.pcrs.hash));
  }

  /** The firmware log has no events for the PCRs `lo`..`hi`: its replay does not look at them. */
  ghost predicate FirmwareIgnores(w: Outside, eventLog: Bytes, lo: nat, hi: nat) {
    forall p: PCRs, p': PCRs {:trigger w.parse(eventLog, p), w.parse(eventLog, p')} ::
      && p.hash == p'.hash && p.pcrs.Keys == p'.pcrs.Keys
      && (forall j | j in p.pcrs && (j < lo || j > hi) :: p.pcrs[j] == p'.pcrs[j])
      ==> w.parse(eventLog, p) == w.parse(eventLog, p')
  }

  /** An attestation with a single quote. */
  lemma OneQuoteVerifies(w: Outside, att: Attestation, nonce: Bytes, q: Quote)
    requires att.akPub.Some? && att.quotes == [q] && q.pcrs.hash in SIGNATURE_HASH_ALGS
    requires VerifyQuote(w.h, w.ver, q, att.akPub.value, nonce).None? && w.parse(att.eventLog, q.pcrs).Some?
    ensures Verified(w, att, nonce)
  {
    var opts := ServiceOpts(att.akPub.value, nonce);
    assert First(att.quotes, q.pcrs.hash) == Some(q);
    assert Trusts(w, att, opts, att.akPub.value, None);
    assert Asked(opts, q.pcrs.hash) && Usable(w, att, opts, att.akPub.value, q.pcrs.hash);
    SucceedsExactly(w, att, opts);
  }

  /** The quote that a verified attestation was verified with. */
  lemma VerifiedQuote(w: Outside, att: Attestation, nonce: Bytes) returns (q: Quote)
    requires CarriesHash(w) && Verified(w, att, nonce)
    ensures First(att.quotes, Attestations.Outcome(w, att, ServiceOpts(att.akPub.value, nonce)).value.hash) == Some(q)
    ensures q in att.quotes && q.pcrs.hash in SIGNATURE_HASH_ALGS
    ensures VerifyQuote(w.h, w.ver, q, att.akPub.value, nonce).None? && w.parse(att.eventLog, q.pcrs).Some?
  {
    var opts := ServiceOpts(att.akPub.value, nonce);
    var key, info := MostPreferred(w, att, opts);
    assert key == att.akPub.value;
    q := First(att.quotes, Attestations.Outcome(w, att, opts).value.hash).value;
  }

  /** The attestation with one quote whose values are regrouped, and with the log of a launch. */
  function RegroupedAttestation(w: Outside, att: Attestation, q: Quote, lo: nat, hi: nat, m: nat, x: LaunchInput,
                                algs: seq<HashAlg>): Attestation
    requires lo < COS_EVENT_PCR < hi && lo <= m <= hi && m in q.pcrs.pcrs
    requires Formattable(x.overrideEnvs) && AllMeasurable(LaunchEvents(x))
  {
    var p := Regrouped(q.pcrs.pcrs, lo, COS_EVENT_PCR, hi, m);
    att.(quotes := [q.(pcrs := PCRs(q.pcrs.hash, p))], cel := RecordsFor(w.h, TpmRoot, algs, LaunchEvents(x)))
  }

  /** A quoted register `m` of the window `lo`..`hi` around the COS register holds the fold of a launch's events. */
  ghost predicate RecordsElsewhere(h: Hash, q: Quote, lo: nat, hi: nat, m: nat, x: LaunchInput) {
    && lo < COS_EVENT_PCR < hi < NUM_PCRS && lo <= m <= hi
    && lo in q.pcrs.pcrs && COS_EVENT_PCR in q.pcrs.pcrs && hi in q.pcrs.pcrs && m in q.pcrs.pcrs
    && Formattable(x.overrideEnvs) && AllMeasurable(LaunchEvents(x))
    && (forall i | 0 <= i < |x.envs| :: ParseEnvVar(x.envs[i]).Ok?)
    && q.pcrs.pcrs[m]
       == Fold(h, q.pcrs.hash, Zeros(DigestSize(q.pcrs.hash)), EventDigests(h, q.pcrs.hash, LaunchEvents(x)))
  }

  /** What happens without the condition: take a quote that verifies with a firmware log that leaves the window around
      the COS register alone, and a launch recorded in some register of that window. With the values of the window
      regrouped, the attestation verifies, and the log of that launch is accepted, whatever the COS register holds. */
  lemma RegroupedLaunch(w: Outside, att: Attestation, nonce: Bytes, q: Quote, lo: nat, hi: nat, m: nat, x: LaunchInput,
                        algs: seq<HashAlg>)
    requires att.akPub.Some? && q.pcrs.hash in SIGNATURE_HASH_ALGS && q.pcrs.hash in algs
    requires VerifyQuote(w.h, w.ver, q, att.akPub.value, nonce).None? && w.parse(att.eventLog, q.pcrs).Some?
    requires RecordsElsewhere(w.h, q, lo, hi, m, x) && FirmwareIgnores(w, att.eventLog, lo, hi)
    ensures var att' := RegroupedAttestation(w, att, q, lo, hi, m, x, algs);
            && Verified(w, att', nonce)
            && AcceptedBy(w.h, att'.cel, BankOf(att'.quotes[0]), PcrType)
            && StateOf(Events(att'.cel)) == ExpectedState(x)
  {
    var key := att.akPub.value;
    LengthsUnbound(w.h, w.ver, q, key, nonce, lo, COS_EVENT_PCR, hi, m);
    var p := Regrouped(q.pcrs.pcrs, lo, COS_EVENT_PCR, hi, m);
    var att' := RegroupedAttestation(w, att, q, lo, hi, m, x, algs);
    assert w.parse(att.eventLog, PCRs(q.pcrs.hash, p)) == w.parse(att.eventLog, q.pcrs);
    OneQuoteVerifies(w, att', nonce, att'.quotes[0]);
    HonestLaunchRoundTrip(w.h, TpmRoot, algs, x, MrBank(q.pcrs.hash, p));
  }

  /** So the verification service reports that launch. */
  method VerifyRegrouped(w: Outside, att: Attestation, nonce: Bytes, q: Quote, lo: nat, hi: nat, m: nat, x: LaunchInput,
                         algs: seq<HashAlg>) returns (r: Result<(MachineState, CosState), ServiceError>)
    requires CarriesHash(w) && Verified(w, att, nonce)
    requires First(att.quotes, Attestations.Outcome(w, att, ServiceOpts(att.akPub.value, nonce)).value.hash) == Some(q)
    requires q.pcrs.hash in algs
    requires RecordsElsewhere(w.h, q, lo, hi, m, x) && FirmwareIgnores(w, att.eventLog, lo, hi)
    ensures r.Ok? && r.value.1 == ExpectedState(x)
  {
    ghost var _ := VerifiedQuote(w, att, nonce);
    RegroupedLaunch(w, att, nonce, q, lo, hi, m, x, algs);
    ghost var chosen;
    r, chosen := VerifyTPM(w, RegroupedAttestation(w, att, q, lo, hi, m, x, algs), nonce);
  }
}
