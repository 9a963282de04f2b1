/** Launch, quote and verdict in one run: the container runner measures on the machine whose TPM is then quoted while
    other actors interfere, and the verification service judges the quote with whatever log is sent along. */
module EndToEnd {
  import opened Basics
  import opened Hashing
  import opened PcrSelection
  import opened CosTlvs
  import opened EnvVars
  import opened TpmMachine
  import opened CosLog
  import opened Launch
  import opened Runner
  import opened LaunchTheorems
  import opened Quotes
  import opened Attestations

  /** The TPM's COS register at time `t` is the launcher's `reg`, extended with `later`. */
  ghost predicate ExtendedSince(tpm: Tpm, t: nat, a: HashAlg, reg: Bytes, later: seq<Bytes>) {
    && a in tpm.At(t) && |tpm.At(t)[a]| > COS_EVENT_PCR
    && tpm.At(t)[a][COS_EVENT_PCR] == Fold(tpm.h, a, reg, later) && Sized(later, DigestSize(a))
  }

  /** The quoted PCR values are those of time `t`: what quoting gives, unless the hash collided. */
  ghost predicate ShowsMoment(tpm: Tpm, q: Quote, sel: Selection, t: nat) {
    Readable(tpm.At(t), sel) && q.pcrs == PCRs(sel.hash, Values(tpm.At(t), sel))
  }

  /** Whoever holds the key sends one quote, a firmware log and a COS log. */
  function Sent(k: SigningKey, q: Quote, eventLog: Bytes, log: seq<Record>): Attestation {
    Attestation(Some(k.pub), [], [], [q], eventLog, log)
  }

  /** What the accepted state of a non-empty log must be. */
  ghost predicate OnlyTheLaunch(h: Hash, a: HashAlg, x: LaunchInput, later: seq<Bytes>, log: seq<Record>,
                                state: CosState)
    requires Formattable(x.overrideEnvs) && AllMeasurable(LaunchEvents(x))
  {
    log != [] && SoundOn(h, a, Messages(h, a, TpmRoot, LaunchEvents(x), later, log))
    ==> later == [] && state == ExpectedState(x)
  }

  /** The launch can be reported at all. */
  predicate Reportable(x: LaunchInput) {
    forall i | 0 <= i < |x.envs| :: ParseEnvVar(x.envs[i]).Ok?
  }

  lemma Judged(h: Hash, algs: seq<HashAlg>, x: LaunchInput, later: seq<Bytes>, log: seq<Record>, bank: MrBank)
    requires ProperHash(h) && Formattable(x.overrideEnvs) && AllMeasurable(LaunchEvents(x)) && bank.alg in algs
    requires COS_EVENT_PCR in bank.regs && Sized(later, DigestSize(bank.alg))
    requires var launched := Fold(h, bank.alg, Zeros(DigestSize(bank.alg)), EventDigests(h, bank.alg, LaunchEvents(x)));
             bank.regs[COS_EVENT_PCR] == Fold(h, bank.alg, launched, later)
    ensures AcceptedBy(h, log, bank, PcrType) ==> OnlyTheLaunch(h, bank.alg, x, later, log, StateOf(Events(log)))
    ensures later == [] && log == RecordsFor(h, TpmRoot, algs, LaunchEvents(x)) ==>
              (AcceptedBy(h, log, bank, PcrType) <==> Reportable(x)) && StateOf(Events(log)) == ExpectedState(x)
  {
    FoldAppend(h, bank.alg, Zeros(DigestSize(bank.alg)), EventDigests(h, bank.alg, LaunchEvents(x)), later);
    if AcceptedBy(h, log, bank, PcrType) && log != []
       && SoundOn(h, bank.alg, Messages(h, bank.alg, TpmRoot, LaunchEvents(x), later, log)) {
      LaunchFinality(h, TpmRoot, x, later, log, bank);
    }
    if later == [] && log == RecordsFor(h, TpmRoot, algs, LaunchEvents(x)) {
      HonestLaunchRoundTrip(h, TpmRoot, algs, x, bank);
    }
  }

  /** What the verdict on a quote of time `t` is worth, for a machine that launched `x` with the banks `algs`. */
  ghost predicate RightVerdict(tpm: Tpm, w: Outside, att: Attestation, nonce: Bytes, sel: Selection, t: nat,
                               algs: seq<HashAlg>,
                               x: LaunchInput, later: seq<Bytes>, r: Result<(MachineState, CosState), ServiceError>)
    requires Formattable(x.overrideEnvs) && AllMeasurable(LaunchEvents(x)) && |att.quotes| == 1
  {
    var a := sel.hash;
    var launched := Fold(tpm.h, a, Zeros(DigestSize(a)), EventDigests(tpm.h, a, LaunchEvents(x)));
    ShowsMoment(tpm, att.quotes[0], sel, t) && ExtendedSince(tpm, t, a, launched, later) ==>
      && (r.Ok? ==> OnlyTheLaunch(tpm.h, a, x, later, att.cel, r.value.1))
      && (later == [] && att.cel == RecordsFor(tpm.h, TpmRoot, algs, LaunchEvents(x)) && Verified(w, att, nonce) ==>
            (r.Ok? <==> Reportable(x)) && (r.Ok? ==> r.value.1 == ExpectedState(x)))
  }

  /** The verdict of the service is of that kind. */
  lemma VerdictIsRight(tpm: Tpm, w: Outside, att: Attestation, nonce: Bytes, sel: Selection, t: nat, algs: seq<HashAlg>,
                       x: LaunchInput, later: seq<Bytes>, r: Result<(MachineState, CosState), ServiceError>)
    requires ProperHash(tpm.h) && w.h == tpm.h && sel.hash in algs && COS_EVENT_PCR in sel.pcrs
    requires Formattable(x.overrideEnvs) && AllMeasurable(LaunchEvents(x)) && |att.quotes| == 1
    requires Verified(w, att, nonce) ==> (r.Ok? <==> AcceptedBy(w.h, att.cel, BankOf(att.quotes[0]), PcrType))
    requires r.Ok? ==> Verified(w, att, nonce) && r.value.1 == StateOf(Events(att.cel))
    ensures RightVerdict(tpm, w, att, nonce, sel, t, algs, x, later, r)
  {
    var launched := Fold(tpm.h, sel.hash, Zeros(DigestSize(sel.hash)), EventDigests(tpm.h, sel.hash, LaunchEvents(x)));
    if ShowsMoment(tpm, att.quotes[0], sel, t) && ExtendedSince(tpm, t, sel.hash, launched, later) {
      assert COS_EVENT_PCR in Elements(sel.pcrs);
      Judged(tpm.h, algs, x, later, att.cel, BankOf(att.quotes[0]));
    }
  }

  /** Quotes the TPM and has the service judge the quote with `log`. */
  method QuoteAndVerify(tpm: Tpm, w: Outside, k: SigningKey, sel: Selection, nonce: Bytes, sign: Attest -> Bytes,
                        eventLog: Bytes, log: seq<Record>, ghost algs: seq<HashAlg>, ghost x: LaunchInput,
                        ghost later: seq<Bytes>)
    returns (quote: Result<Quote, QuoteFailure>, r: Result<(MachineState, CosState), ServiceError>, ghost t: nat)
    requires tpm.Valid() && CarriesHash(w) && w.h == tpm.h && sel.hash in algs && COS_EVENT_PCR in sel.pcrs
    requires Formattable(x.overrideEnvs) && AllMeasurable(LaunchEvents(x))
    modifies tpm`clock, tpm`banks, tpm`pcrCounter, tpm`created
    ensures tpm.Valid() && old(tpm.clock) <= t <= tpm.clock
    ensures quote.Err? ==> r.Err?
    ensures old(tpm.Quiet()) && HonestSigner(w.ver, k, sign) ==>
              (quote.Ok? <==> k.restricted && Readable(old(tpm.banks), sel))
    ensures quote.Ok? ==>
              && (ShowsMoment(tpm, quote.value, sel, t) || QuoteCollision(tpm, k, quote.value, sel, t))
              && RightVerdict(tpm, w, Sent(k, quote.value, eventLog, log), nonce, sel, t, algs, x, later, r)
  {
    quote, t := TakeQuote(tpm, w.ver, k, sel, nonce, sign);
    if quote.Err? {
      r := Err(NoAk);
      return;
    }
    ghost var q;
    r, q := VerifyTPM(w, Sent(k, quote.value, eventLog, log), nonce);
    VerdictIsRight(tpm, w, Sent(k, quote.value, eventLog, log), nonce, sel, t, algs, x, later, r);
  }

  /** Measures the launch. */
  method MeasureLaunch(runner: ContainerRunner) returns (o: Launch.Outcome)
    requires runner.agent.Valid() && !runner.agent.failed && runner.agent.measured == []
    modifies runner.agent, runner.agent.measuredRots
    ensures runner.agent.Valid() && runner.agent.avRot.Valid()
    ensures o.Pass? ==> Formattable(runner.input.overrideEnvs) && AllMeasurable(LaunchEvents(runner.input))
    ensures o.Pass? ==> runner.agent.avRot.InSync() && runner.agent.avRot.events == LaunchEvents(runner.input)
    ensures runner.agent.Reliable() ==>
              (o.Pass? <==> Formattable(runner.input.overrideEnvs) && AllMeasurable(LaunchEvents(runner.input)))
  {
    var evidence;
    o, evidence := runner.Run(0);
    assert runner.agent.avRot in runner.agent.measuredRots;
  }

  /** Measures the launch and, if that succeeds, quotes the TPM and has the service judge the quote with `log`.
      - Whatever log is accepted, if it is not empty: nothing was extended between launch and quote, and the reported
        state is that of the launch.
      - If nothing was extended and the launcher's own log is sent, it is accepted exactly if the launch is reportable,
        provided quote and firmware log verify. */
  method LaunchAndVerify(runner: ContainerRunner, tpm: Tpm, w: Outside, k: SigningKey, sel: Selection, nonce: Bytes,
                         sign: Attest -> Bytes, eventLog: Bytes, log: seq<Record>, ghost later: seq<Bytes>)
    returns (o: Launch.Outcome, quote: Result<Quote, QuoteFailure>, r: Result<(MachineState, CosState), ServiceError>,
             ghost t: nat)
    requires runner.agent.Valid() && !runner.agent.failed && runner.agent.measured == []
    requires tpm.Valid() && CarriesHash(w) && w.h == tpm.h
    requires var root := runner.agent.avRot; root.kind == TpmRoot && root.h == tpm.h && sel.hash in root.hashAlgos
    requires COS_EVENT_PCR in sel.pcrs
    modifies runner.agent, runner.agent.measuredRots
    modifies tpm`clock, tpm`banks, tpm`pcrCounter, tpm`created
    ensures tpm.Valid() && runner.agent.Valid() && old(tpm.clock) <= t <= tpm.clock
    ensures o.Fail? ==> quote.Err?
    ensures quote.Err? ==> r.Err?
    ensures o.Pass? ==> Formattable(runner.input.overrideEnvs) && AllMeasurable(LaunchEvents(runner.input))
    ensures runner.agent.Reliable() ==>
              (o.Pass? <==> Formattable(runner.input.overrideEnvs) && AllMeasurable(LaunchEvents(runner.input)))
    ensures o.Pass? && old(tpm.Quiet()) && HonestSigner(w.ver, k, sign) ==>
              (quote.Ok? <==> k.restricted && Readable(old(tpm.banks), sel))
    ensures o.Pass? ==> runner.agent.avRot.InSync() && runner.agent.avRot.events == LaunchEvents(runner.input)
    ensures quote.Ok? ==>
              && (ShowsMoment(tpm, quote.value, sel, t) || QuoteCollision(tpm, k, quote.value, sel, t))
              && RightVerdict(tpm, w, Sent(k, quote.value, eventLog, log), nonce, sel, t, runner.agent.avRot.hashAlgos,
                              runner.input, later, r)
  {
    t := tpm.clock;
    quote, r := Err(NotASigningKey), Err(NoAk);
    o := MeasureLaunch(runner);
    if o.Fail? {
      return;
    }
    quote, r, t := QuoteAndVerify(tpm, w, k, sel, nonce, sign, eventLog, log, runner.agent.avRot.hashAlgos,
                                  runner.input, later);
  }

  /** Two different value strings with the same digest, which is the only way a quote can fail to show its moment. */
  ghost predicate QuoteCollision(tpm: Tpm, k: SigningKey, q: Quote, sel: Selection, t: nat) {
    && k.signHash.Some? && Readable(tpm.At(t), sel)
    && Collision(tpm.h, k.signHash.value, Concat(q.pcrs.pcrs, NUM_PCRS), Concat(Values(tpm.At(t), sel), NUM_PCRS))
  }
}
