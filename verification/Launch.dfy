/** The launcher's side of the COS event log: attestation roots, the agent and the container runner. */
module Launch {
  import opened Basics
  import opened Hashing
  import opened CosTlvs
  import opened EnvVars
  import opened CosLog

  datatype RootKind = TpmRoot | TdxRoot

  datatype LaunchError = NoHashAlgos | NotMeasurable(e: TlvError) | ExtendFailed | BadOverride(v: EnvError)

  datatype Outcome = Pass | Fail(error: LaunchError)

  datatype Monitoring = NoMonitoring | MemoryOnly | AllMonitoring

  /** What the container runtime and the operator's launch spec give the runner. */
  datatype LaunchInput = LaunchInput(
    imageRef: Bytes,
    imageDigest: Bytes,
    restartPolicy: RestartPolicy,
    imageId: Option<Bytes>,
    args: seq<Bytes>,
    envs: seq<Bytes>,
    overrideEnvs: seq<EnvVar>,
    overrideArgs: seq<Bytes>,
    monitoring: Monitoring)

  /** The text of a restart policy in the launch spec. */
  function PolicyText(p: RestartPolicy): Bytes {
    match p
    case Always => Ascii("Always")
    case OnFailure => Ascii("OnFailure")
    case Never => Ascii("Never")
  }

  /** A quote over every bank of the attestation root, and the log encoded after it. */
  datatype Evidence = Evidence(banks: map<HashAlg, MrBank>, log: seq<Record>)

  function RecordType(kind: RootKind): MrType {
    if kind.TpmRoot? then PcrType else CcmrType
  }

  /** The register index written into log records. */
  function RecordIndex(kind: RootKind): nat {
    if kind.TpmRoot? then COS_EVENT_PCR else COS_CCELMR_INDEX
  }

  /** The register that is extended: a PCR, or the RTMR below the record's index. */
  function HardwareIndex(kind: RootKind): nat {
    if kind.TpmRoot? then COS_EVENT_PCR else COS_RTMR
  }

  predicate AllMeasurable(es: seq<CosTlv>) {
    forall i | 0 <= i < |es| :: Measurable(es[i])
  }

  function EventDigest(h: Hash, a: HashAlg, c: CosTlv): Bytes
    requires Measurable(c)
  {
    h(a, DigestMessage(c).value)
  }

  /** The digests that measuring `es` extends into bank `a`. */
  function EventDigests(h: Hash, a: HashAlg, es: seq<CosTlv>): (ds: seq<Bytes>)
    requires AllMeasurable(es)
    ensures |ds| == |es|
  {
    seq(|es|, i requires 0 <= i < |es| => EventDigest(h, a, es[i]))
  }

  lemma EventDigestsSnoc(h: Hash, a: HashAlg, es: seq<CosTlv>, e: CosTlv)
    requires AllMeasurable(es) && Measurable(e)
    ensures EventDigests(h, a, es + [e]) == EventDigests(h, a, es) + [EventDigest(h, a, e)]
  {
  }

  function RecordFor(h: Hash, kind: RootKind, algs: seq<HashAlg>, n: nat, c: CosTlv): Record
    requires Measurable(c)
  {
    Record(n, RecordType(kind), RecordIndex(kind), map a | a in algs :: EventDigest(h, a, c), ToTlv(c).value)
  }

  function RecordsFor(h: Hash, kind: RootKind, algs: seq<HashAlg>, es: seq<CosTlv>): seq<Record>
    requires AllMeasurable(es)
  {
    seq(|es|, i requires 0 <= i < |es| => RecordFor(h, kind, algs, i, es[i]))
  }

  /** The log of some events, record by record: consecutive numbers, register 13 of a TPM or 4 of the other kind, a digest
      of the whole event for every bank, and the event itself; later events add records and change none. */
  lemma RecordsExact(h: Hash, kind: RootKind, algs: seq<HashAlg>, es: seq<CosTlv>, more: seq<CosTlv>, i: nat)
    requires AllMeasurable(es) && AllMeasurable(es + more) && i < |es|
    ensures var r := RecordsFor(h, kind, algs, es)[i];
            && |RecordsFor(h, kind, algs, es)| == |es| && RecordsFor(h, kind, algs, es + more)[i] == r
            && r.recNum == i && r.index == (if kind.TpmRoot? then 13 else 4)
            && ParseToCosTlv(r.content) == Ok(es[i]) && r.digests.Keys == Elements(algs)
            && forall a | a in algs :: GenerateDigest(h, a, es[i]) == Ok(r.digests[a])
  {
    ParseIffEncoded(ToTlv(es[i]).value, es[i]);
    assert (es + more)[i] == es[i];
  }

  function Written(regs: map<nat, Bytes>, i: nat, v: Bytes): map<nat, Bytes> {
    regs[i := v]
  }

  class AttestRoot {
    const h: Hash
    const kind: RootKind
    const hashAlgos: seq<HashAlg>
    /** Which of the root's extend commands fail. */
    const faults: nat -> bool
    var extendCount: nat
    /** Hardware registers of each bank. */
    var mrs: map<HashAlg, map<nat, Bytes>>
    var cosCel: seq<Record>
    ghost var events: seq<CosTlv>

    ghost predicate Valid()
      reads this
    {
      && ProperHash(h)
      && Distinct(hashAlgos)
      && Wired()
      && AllMeasurable(events)
      && cosCel == RecordsFor(h, kind, hashAlgos, events)
    }

    function Reg(a: HashAlg): Bytes
      requires a in mrs && HardwareIndex(kind) in mrs[a]
      reads this
    {
      mrs[a][HardwareIndex(kind)]
    }

    /** Every bank holds exactly what its log says was extended since it was zero. */
    ghost predicate InSync()
      requires Valid()
      reads this
    {
      forall a | a in hashAlgos :: Reg(a) == Fold(h, a, Zeros(DigestSize(a)), EventDigests(h, a, events))
    }

    ghost predicate Reliable() {
      forall n :: !faults(n)
    }

    constructor (h: Hash, kind: RootKind, hashAlgos: seq<HashAlg>, mrs: map<HashAlg, map<nat, Bytes>>,
                 faults: nat -> bool)
      requires ProperHash(h) && Distinct(hashAlgos)
      requires forall a | a in hashAlgos ::
                 a in mrs && HardwareIndex(kind) in mrs[a] && mrs[a][HardwareIndex(kind)] == Zeros(DigestSize(a))
      ensures Valid() && InSync() && events == []
      ensures this.h == h && this.kind == kind && this.hashAlgos == hashAlgos && this.mrs == mrs
      ensures this.faults == faults
    {
      this.h, this.kind, this.hashAlgos, this.mrs, this.faults := h, kind, hashAlgos, mrs, faults;
      extendCount, cosCel, events := 0, [], [];
    }

    /** Every register but the COS register of a measured bank is as it was in `before`. */
    ghost predicate OthersKept(before: map<HashAlg, map<nat, Bytes>>)
      reads this
    {
      && mrs.Keys == before.Keys
      && forall a, i | a in before && i in before[a] && (i != HardwareIndex(kind) || a !in hashAlgos) ::
           i in mrs[a] && mrs[a][i] == before[a][i]
    }

    /** Every measured bank has a COS register. */
    ghost predicate Wired()
      reads this
    {
      forall a | a in hashAlgos :: a in mrs && HardwareIndex(kind) in mrs[a]
    }

    /** Extends one bank's COS register. */
    method ExtendRegister(a: HashAlg, digest: Bytes) returns (ok: bool)
      requires Wired() && a in hashAlgos
      modifies this`mrs, this`extendCount
      ensures ok <==> !faults(old(extendCount))
      ensures extendCount == old(extendCount) + 1
      ensures Wired() && OthersKept(old(mrs))
      ensures Reg(a) == if ok then h(a, old(Reg(a)) + digest) else old(Reg(a))
      ensures forall b | b in hashAlgos && b != a :: Reg(b) == old(Reg(b))
    {
      ok := !faults(extendCount);
      extendCount := extendCount + 1;
      if ok {
        mrs := mrs[a := Written(mrs[a], HardwareIndex(kind), h(a, Reg(a) + digest))];
      }
    }

    /** Extends the COS register of every bank with a message's digest, stopping at the first failure. */
    method ExtendBanks(message: Bytes) returns (ok: bool)
      requires Valid()
      modifies this`mrs, this`extendCount
      ensures Valid() && OthersKept(old(mrs))
      ensures ok ==> forall a | a in hashAlgos :: Reg(a) == h(a, old(Reg(a)) + h(a, message))
      ensures Reliable() ==> ok
    {
      var i := 0;
      while i < |hashAlgos|
        invariant 0 <= i <= |hashAlgos|
        invariant Wired() && OthersKept(old(mrs))
        invariant forall k | 0 <= k < i ::
                    Reg(hashAlgos[k]) == h(hashAlgos[k], old(Reg(hashAlgos[k])) + h(hashAlgos[k], message))
        invariant forall k | i <= k < |hashAlgos| :: Reg(hashAlgos[k]) == old(Reg(hashAlgos[k]))
      {
        ok := ExtendRegister(hashAlgos[i], h(hashAlgos[i], message));
        if !ok {
          return;
        }
        i := i + 1;
      }
      ok := true;
    }

    /** Measures an event: extends every bank, and only then appends the event to the log. */
    method Extend(c: CosTlv) returns (r: Outcome)
      requires Valid()
      modifies this
      ensures Valid() && OthersKept(old(mrs))
      ensures r.Pass? ==> events == old(events) + [c] && (old(InSync()) ==> InSync())
      ensures r.Fail? ==> events == old(events)
      ensures Reliable() ==> (r.Pass? <==> hashAlgos != [] && Measurable(c))
    {
      MeasurableIff(c);
      if hashAlgos == [] {
        return Fail(NoHashAlgos);
      }
      if DigestMessage(c).Err? {
        return Fail(NotMeasurable(DigestMessage(c).error));
      }
      var ok := ExtendBanks(DigestMessage(c).value);
      if !ok {
        return Fail(ExtendFailed);
      }
      cosCel := cosCel + [RecordFor(h, kind, hashAlgos, |cosCel|, c)];
      events := events + [c];
      assert cosCel == RecordsFor(h, kind, hashAlgos, events);
      forall a | a in hashAlgos && old(InSync())
        ensures Reg(a) == Fold(h, a, Zeros(DigestSize(a)), EventDigests(h, a, events))
      {
        EventDigestsSnoc(h, a, old(events), c);
        FoldSnoc(h, a, Zeros(DigestSize(a)), EventDigests(h, a, old(events)), EventDigest(h, a, c));
      }
      return Pass;
    }

    /** The bank as a verifier sees it: RTMR i is register i + 1 of the log. */
    function Bank(a: HashAlg): MrBank
      requires a in mrs
      reads this
    {
      MrBank(a, if kind.TpmRoot? then mrs[a] else map i | i in mrs[a] :: i + 1 := mrs[a][i])
    }

    /** Quotes the registers, then encodes the log. */
    method Attest() returns (e: Evidence)
      requires Valid()
      ensures e.log == cosCel
      ensures e.banks.Keys == Elements(hashAlgos)
      ensures forall a | a in hashAlgos :: e.banks[a] == Bank(a)
    {
      var banks := map a | a in hashAlgos :: Bank(a);
      e := Evidence(banks, cosCel);
    }
  }

  class Agent {
    const measuredRots: seq<AttestRoot>
    const avRot: AttestRoot
    /** Events that reached every root, and whether a measurement failed part way. */
    ghost var measured: seq<CosTlv>
    ghost var failed: bool

    ghost predicate Valid()
      reads this, measuredRots
    {
      && Distinct(measuredRots)
      && avRot in measuredRots
      && (forall r | r in measuredRots :: r.Valid())
      && (!failed ==> forall r | r in measuredRots :: r.events == measured && r.InSync())
    }

    ghost predicate Reliable() {
      forall r | r in measuredRots :: r.Reliable() && r.hashAlgos != []
    }

    constructor (rots: seq<AttestRoot>, avRot: AttestRoot)
      requires Distinct(rots) && avRot in rots
      requires forall r | r in rots :: r.Valid() && r.InSync() && r.events == []
      ensures Valid() && measuredRots == rots && this.avRot == avRot && measured == [] && !failed
    {
      this.measuredRots, this.avRot, this.measured, this.failed := rots, avRot, [], false;
    }

    method MeasureEvent(c: CosTlv) returns (r: Outcome)
      requires Valid()
      modifies this, measuredRots
      ensures Valid()
      ensures r.Pass? ==> measured == old(measured) + [c] && failed == old(failed)
      ensures r.Fail? ==> measured == old(measured) && failed
      ensures Reliable() ==> (r.Pass? <==> Measurable(c))
    {
      ghost var wasFailed := failed;
      failed := true;
      var i := 0;
      while i < |measuredRots|
        invariant 0 <= i <= |measuredRots|
        invariant failed && measured == old(measured)
        invariant forall r | r in measuredRots :: r.Valid()
        invariant !wasFailed ==>
                    forall k | 0 <= k < i :: measuredRots[k].events == measured + [c] && measuredRots[k].InSync()
        invariant !wasFailed ==>
                    forall k | i <= k < |measuredRots| :: measuredRots[k].events == measured && measuredRots[k].InSync()
        invariant Reliable() && i > 0 ==> Measurable(c)
      {
        var o := measuredRots[i].Extend(c);
        if o.Fail? {
          return o;
        }
        i := i + 1;
      }
      failed := wasFailed;
      measured := measured + [c];
      return Pass;
    }
  }
}
