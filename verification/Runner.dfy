/** What a container launch measures, in order, and the phases of a run. */
module Runner {
  import opened Basics
  import opened Hashing
  import opened CosTlvs
  import opened EnvVars
  import opened CosLog
  import opened Launch

  function Tagged(t: byte, contents: seq<Bytes>): (es: seq<CosTlv>)
    ensures |es| == |contents|
  {
    seq(|contents|, i requires 0 <= i < |contents| => CosTlv(t, contents[i]))
  }

  /** All operator overrides can be written as NAME=VALUE. */
  predicate Formattable(vs: seq<EnvVar>) {
    forall i | 0 <= i < |vs| :: FormatEnvVar(vs[i].name, vs[i].value).Ok?
  }

  function Formatted(vs: seq<EnvVar>): (texts: seq<Bytes>)
    requires Formattable(vs)
    ensures |texts| == |vs|
  {
    seq(|vs|, i requires 0 <= i < |vs| => FormatEnvVar(vs[i].name, vs[i].value).value)
  }

  function ImageEvents(x: LaunchInput): seq<CosTlv> {
    [CosTlv(IMAGE_REF, x.imageRef)] + [CosTlv(IMAGE_DIGEST, x.imageDigest)]
    + [CosTlv(RESTART_POLICY, PolicyText(x.restartPolicy))]
    + Tagged(IMAGE_ID, if x.imageId.Some? then [x.imageId.value] else [])
  }

  function ProcessEvents(x: LaunchInput): seq<CosTlv> {
    Tagged(ARG, x.args) + Tagged(ENV_VAR, x.envs)
  }

  function OverrideEvents(x: LaunchInput): seq<CosTlv>
    requires Formattable(x.overrideEnvs)
  {
    Tagged(OVERRIDE_ENV, Formatted(x.overrideEnvs)) + Tagged(OVERRIDE_ARG, x.overrideArgs)
  }

  function ClaimEvents(x: LaunchInput): seq<CosTlv>
    requires Formattable(x.overrideEnvs)
  {
    ImageEvents(x) + ProcessEvents(x) + OverrideEvents(x)
  }

  function MonitorEvent(x: LaunchInput): CosTlv {
    CosTlv(MEMORY_MONITOR, [if x.monitoring.MemoryOnly? then 1 else 0])
  }

  /** The events of a complete launch. */
  function LaunchEvents(x: LaunchInput): seq<CosTlv>
    requires Formattable(x.overrideEnvs)
  {
    ClaimEvents(x) + [MonitorEvent(x)] + [CosTlv(LAUNCH_SEPARATOR, [])]
  }

  method FormatEnvVars(vs: seq<EnvVar>) returns (r: Result<seq<Bytes>, EnvError>)
    ensures r.Ok? <==> Formattable(vs)
    ensures r.Ok? ==> r.value == Formatted(vs)
  {
    var texts := [];
    var i := 0;
    while i < |vs|
      invariant 0 <= i <= |vs|
      invariant Formattable(vs[..i])
      invariant texts == Formatted(vs[..i])
    {
      var text := FormatEnvVar(vs[i].name, vs[i].value);
      if text.Err? {
        return Err(text.error);
      }
      assert vs[..i + 1] == vs[..i] + [vs[i]];
      texts := texts + [text.value];
      i := i + 1;
    }
    assert vs[..i] == vs;
    return Ok(texts);
  }

  /** Only the events before some point were measured; on working roots the one at that point cannot be measured. */
  ghost predicate StoppedAt(before: seq<CosTlv>, after: seq<CosTlv>, es: seq<CosTlv>, i: nat, reliable: bool) {
    i < |es| && after == before + es[..i] && (reliable ==> AllMeasurable(es[..i]) && !Measurable(es[i]))
  }

  class ContainerRunner {
    const agent: Agent
    const input: LaunchInput

    constructor (agent: Agent, input: LaunchInput)
      ensures this.agent == agent && this.input == input
    {
      this.agent, this.input := agent, input;
    }

    /** One measurement after another, stopping at the first failure. */
    method MeasureEach(es: seq<CosTlv>) returns (r: Outcome)
      requires agent.Valid()
      modifies agent, agent.measuredRots
      ensures agent.Valid()
      ensures r.Pass? ==> agent.measured == old(agent.measured) + es && agent.failed == old(agent.failed)
      ensures r.Fail? ==>
                agent.failed && exists i :: StoppedAt(old(agent.measured), agent.measured, es, i, agent.Reliable())
      ensures agent.Reliable() ==> (r.Pass? <==> AllMeasurable(es))
    {
      var i := 0;
      while i < |es|
        invariant 0 <= i <= |es|
        invariant agent.Valid() && agent.failed == old(agent.failed)
        invariant agent.measured == old(agent.measured) + es[..i]
        invariant agent.Reliable() ==> AllMeasurable(es[..i])
      {
        r := agent.MeasureEvent(es[i]);
        if r.Fail? {
          assert StoppedAt(old(agent.measured), agent.measured, es, i, agent.Reliable());
          return;
        }
        assert es[..i + 1] == es[..i] + [es[i]];
        i := i + 1;
      }
      assert es[..i] == es;
      r := Pass;
    }

    method MeasureContainerClaims() returns (r: Outcome)
      requires agent.Valid()
      modifies agent, agent.measuredRots
      ensures agent.Valid()
      ensures r.Pass? ==> Formattable(input.overrideEnvs) && agent.failed == old(agent.failed)
      ensures r.Pass? ==> agent.measured == old(agent.measured) + ClaimEvents(input)
      ensures agent.Reliable() ==> (r.Pass? <==> Formattable(input.overrideEnvs) && AllMeasurable(ClaimEvents(input)))
    {
      if Formattable(input.overrideEnvs) {
        AllMeasurableConcat(ImageEvents(input) + ProcessEvents(input), OverrideEvents(input));
      }
      r := MeasureEach(ImageEvents(input) + ProcessEvents(input));
      if r.Fail? {
        return;
      }
      var overrides := FormatEnvVars(input.overrideEnvs);
      if overrides.Err? {
        return Fail(BadOverride(overrides.error));
      }
      r := MeasureEach(Tagged(OVERRIDE_ENV, overrides.value) + Tagged(OVERRIDE_ARG, input.overrideArgs));
    }

    static lemma AllMeasurableConcat(a: seq<CosTlv>, b: seq<CosTlv>)
      ensures AllMeasurable(a + b) <==> AllMeasurable(a) && AllMeasurable(b)
    {
      assert forall i | 0 <= i < |a| :: (a + b)[i] == a[i];
      assert forall i | 0 <= i < |b| :: (a + b)[|a| + i] == b[i];
    }

    /** A launch that is measured without error has measured exactly its events, on every root. */
    method MeasureCELEvents() returns (r: Outcome)
      requires agent.Valid()
      modifies agent, agent.measuredRots
      ensures agent.Valid()
      ensures r.Pass? ==> Formattable(input.overrideEnvs) && agent.failed == old(agent.failed)
      ensures r.Pass? ==> agent.measured == old(agent.measured) + LaunchEvents(input)
      ensures agent.Reliable() ==>
                (r.Pass? <==> Formattable(input.overrideEnvs) && AllMeasurable(LaunchEvents(input)))
    {
      r := MeasureContainerClaims();
      if r.Fail? {
        LaunchMeasurable(input);
        return;
      }
      r := agent.MeasureEvent(MonitorEvent(input));
      if r.Fail? {
        return;
      }
      r := agent.MeasureEvent(CosTlv(LAUNCH_SEPARATOR, []));
      LaunchMeasurable(input);
    }

    static lemma LaunchMeasurable(x: LaunchInput)
      ensures Formattable(x.overrideEnvs) ==> (AllMeasurable(LaunchEvents(x)) <==> AllMeasurable(ClaimEvents(x)))
    {
      if Formattable(x.overrideEnvs) {
        AllMeasurableConcat(ClaimEvents(x), [MonitorEvent(x)]);
        AllMeasurableConcat(ClaimEvents(x) + [MonitorEvent(x)], [CosTlv(LAUNCH_SEPARATOR, [])]);
      }
    }

    /** Measures the launch and, only if that succeeded, attests `n` times. */
    method Run(n: nat) returns (r: Outcome, evidence: seq<Evidence>)
      requires agent.Valid() && !agent.failed && agent.measured == []
      modifies agent, agent.measuredRots
      ensures agent.Valid()
      ensures r.Fail? ==> evidence == []
      ensures r.Pass? ==> |evidence| == n && Formattable(input.overrideEnvs) && AllMeasurable(LaunchEvents(input))
      ensures r.Pass? ==>
                forall root | root in agent.measuredRots :: root.events == LaunchEvents(input) && root.InSync()
      ensures r.Pass? ==> var root := agent.avRot; forall i | 0 <= i < n ::
                Consistent(evidence[i], root.h, root.kind, root.hashAlgos, LaunchEvents(input))
      ensures agent.Reliable() ==> (r.Pass? <==> Formattable(input.overrideEnvs) && AllMeasurable(LaunchEvents(input)))
    {
      evidence := [];
      r := MeasureCELEvents();
      if r.Fail? {
        return;
      }
      assert [] + LaunchEvents(input) == LaunchEvents(input);
      assert agent.avRot.Valid() && agent.avRot.events == LaunchEvents(input);
      evidence := AttestTimes(agent.avRot, n);
    }

    /** The default token, its refreshes and on-demand requests all quote and then encode the log. */
    method AttestTimes(root: AttestRoot, n: nat) returns (evidence: seq<Evidence>)
      requires root.Valid() && root.InSync()
      ensures |evidence| == n
      ensures forall i | 0 <= i < n :: Consistent(evidence[i], root.h, root.kind, root.hashAlgos, root.events)
    {
      evidence := [];
      while |evidence| < n
        invariant |evidence| <= n
        invariant forall i | 0 <= i < |evidence| ::
                    Consistent(evidence[i], root.h, root.kind, root.hashAlgos, root.events)
      {
        var e := root.Attest();
        AttestedConsistent(root, e);
        evidence := evidence + [e];
      }
    }
  }

  /** Evidence whose log records exactly `es` and replays against every quoted bank. */
  ghost predicate Consistent(e: Evidence, h: Hash, kind: RootKind, algs: seq<HashAlg>, es: seq<CosTlv>) {
    && AllMeasurable(es)
    && e.log == RecordsFor(h, kind, algs, es)
    && e.banks.Keys == Elements(algs)
    && (forall a | a in algs :: Replays(h, e.log, e.banks[a]))
  }

  /** Evidence from a root in agreement with its log is consistent. */
  lemma AttestedConsistent(root: AttestRoot, e: Evidence)
    requires root.Valid() && root.InSync() && e.log == root.cosCel && e.banks.Keys == Elements(root.hashAlgos)
    requires forall a | a in root.hashAlgos :: e.banks[a] == root.Bank(a)
    ensures Consistent(e, root.h, root.kind, root.hashAlgos, root.events)
  {
    forall a | a in root.hashAlgos ensures Replays(root.h, e.log, e.banks[a]) {
      BankReplays(root, a);
    }
  }

  lemma BankReplays(root: AttestRoot, a: HashAlg)
    requires root.Valid() && root.InSync() && a in root.hashAlgos
    ensures Replays(root.h, root.cosCel, root.Bank(a))
  {
    var bank := root.Bank(a);
    assert RecordIndex(root.kind) in bank.regs && bank.regs[RecordIndex(root.kind)] == root.Reg(a);
    MeasuredLogReplays(root.h, root.kind, root.hashAlgos, root.events, bank);
  }

  // ----- A measured log replays

  lemma RecordsForSnoc(h: Hash, kind: RootKind, algs: seq<HashAlg>, es: seq<CosTlv>, e: CosTlv)
    requires AllMeasurable(es) && Measurable(e)
    ensures AllMeasurable(es + [e])
    ensures RecordsFor(h, kind, algs, es + [e]) == RecordsFor(h, kind, algs, es) + [RecordFor(h, kind, algs, |es|, e)]
  {
  }

  lemma {:induction false} MeasuredDigests(h: Hash, kind: RootKind, algs: seq<HashAlg>, es: seq<CosTlv>, a: HashAlg)
    requires AllMeasurable(es) && a in algs
    ensures DigestsAt(RecordsFor(h, kind, algs, es), a, RecordIndex(kind)) == EventDigests(h, a, es)
  {
    if es != [] {
      var front, last := es[..|es| - 1], es[|es| - 1];
      assert es == front + [last];
      MeasuredDigests(h, kind, algs, front, a);
      EventDigestsSnoc(h, a, front, last);
      var log, r := RecordsFor(h, kind, algs, front), RecordFor(h, kind, algs, |front|, last);
      RecordsForSnoc(h, kind, algs, front, last);
      assert r.index == RecordIndex(kind) && r.digests[a] == EventDigest(h, a, last);
      DigestsAtSnoc(log, r, a, RecordIndex(kind));
    }
  }

  /** Replaying a log that names one register. */
  lemma ReplaysOneRegister(h: Hash, log: seq<Record>, bank: MrBank, index: nat)
    requires forall i | 0 <= i < |log| :: log[i].index == index && bank.alg in log[i].digests
    ensures Replays(h, log, bank) <==>
            log == [] ||
            (index in bank.regs
             && bank.regs[index] == Fold(h, bank.alg, Zeros(DigestSize(bank.alg)), DigestsAt(log, bank.alg, index)))
  {
    if log != [] {
      assert log[0].index == index;
    }
  }

  /** The log of measured events replays against a bank exactly when the bank's COS register is their fold. */
  lemma MeasuredLogReplays(h: Hash, kind: RootKind, algs: seq<HashAlg>, es: seq<CosTlv>, bank: MrBank)
    requires AllMeasurable(es) && bank.alg in algs
    ensures Replays(h, RecordsFor(h, kind, algs, es), bank) <==>
            es == [] ||
            (RecordIndex(kind) in bank.regs
             && bank.regs[RecordIndex(kind)]
                == Fold(h, bank.alg, Zeros(DigestSize(bank.alg)), EventDigests(h, bank.alg, es)))
  {
    MeasuredDigests(h, kind, algs, es, bank.alg);
    ReplaysOneRegister(h, RecordsFor(h, kind, algs, es), bank, RecordIndex(kind));
  }
}
