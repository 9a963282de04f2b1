/** What producer and consumer of the COS event log achieve together. */
module LaunchTheorems {
  import opened Basics
  import opened Hashing
  import opened CosTlvs
  import opened EnvVars
  import opened CosLog
  import opened Launch
  import opened Runner

  // ----- Honest launches are recovered exactly

  /** The state an operator and a container image ask for. */
  function ExpectedState(x: LaunchInput): CosState
    requires Formattable(x.overrideEnvs)
  {
    CosState(
      x.imageRef,
      x.imageDigest,
      x.restartPolicy,
      OrEmpty(x.imageId),
      Bindings(x.envs),
      x.args,
      x.overrideArgs,
      OverrideMap(x.overrideEnvs),
      Some(x.monitoring.MemoryOnly?),
      Unset)
  }

  /** Operator overrides as a map, the later one winning. */
  function OverrideMap(vs: seq<EnvVar>): map<Bytes, Bytes> {
    if vs == [] then map[]
    else OverrideMap(vs[..|vs| - 1])[vs[|vs| - 1].name := vs[|vs| - 1].value]
  }

  lemma {:induction false} FormattedBindings(vs: seq<EnvVar>)
    requires Formattable(vs)
    ensures Bindings(Formatted(vs)) == OverrideMap(vs)
  {
    if vs != [] {
      var front, last := vs[..|vs| - 1], vs[|vs| - 1];
      FormattedBindings(front);
      var text := FormatEnvVar(last.name, last.value).value;
      assert Formatted(vs) == Formatted(front) + [text];
      BindingsSnoc(Formatted(front), text);
      ParseIffFormatted(text, last);
    }
  }

  function ContentIf(e: CosTlv, t: byte): seq<Bytes> {
    if e.eventType == t then [e.content] else []
  }

  lemma ContentsOfLast(es: seq<CosTlv>, e: CosTlv, t: byte)
    ensures ContentsOf(es + [e], t) == ContentsOf(es, t) + ContentIf(e, t)
  {
    assert (es + [e])[..|es|] == es;
  }

  lemma AppendAssoc<T>(a: seq<T>, b: seq<T>, c: seq<T>)
    ensures a + (b + c) == (a + b) + c
  {
  }

  lemma {:induction false} ContentsOfConcat(es: seq<CosTlv>, fs: seq<CosTlv>, t: byte)
    ensures ContentsOf(es + fs, t) == ContentsOf(es, t) + ContentsOf(fs, t)
  {
    if fs == [] {
      assert es + fs == es;
    } else {
      var front, last := fs[..|fs| - 1], fs[|fs| - 1];
      calc {
        ContentsOf(es + fs, t);
        { assert fs == front + [last]; AppendAssoc(es, front, [last]); }
        ContentsOf((es + front) + [last], t);
        { ContentsOfLast(es + front, last, t); }
        ContentsOf(es + front, t) + ContentIf(last, t);
        { ContentsOfConcat(es, front, t); }
        (ContentsOf(es, t) + ContentsOf(front, t)) + ContentIf(last, t);
        { AppendAssoc(ContentsOf(es, t), ContentsOf(front, t), ContentIf(last, t)); }
        ContentsOf(es, t) + (ContentsOf(front, t) + ContentIf(last, t));
      }
    }
  }

  lemma TaggedSnoc(tag: byte, contents: seq<Bytes>, last: Bytes)
    ensures Tagged(tag, contents + [last]) == Tagged(tag, contents) + [CosTlv(tag, last)]
  {
  }

  lemma {:induction false} ContentsOfTagged(tag: byte, contents: seq<Bytes>, t: byte)
    ensures ContentsOf(Tagged(tag, contents), t) == if t == tag then contents else []
  {
    if contents != [] {
      var front, last := contents[..|contents| - 1], contents[|contents| - 1];
      ContentsOfTagged(tag, front, t);
      assert contents == front + [last];
      TaggedSnoc(tag, front, last);
      ContentsOfSnoc(Tagged(tag, front), CosTlv(tag, last), t);
    }
  }

  lemma ContentsOfOne(e: CosTlv, t: byte)
    ensures ContentsOf([e], t) == if e.eventType == t then [e.content] else []
  {
    assert [e] == [] + [e];
    ContentsOfSnoc([], e, t);
  }

  lemma ContentsOfPair(tag: byte, contents: seq<Bytes>, tag': byte, contents': seq<Bytes>, t: byte)
    requires tag != tag'
    ensures ContentsOf(Tagged(tag, contents) + Tagged(tag', contents'), t) ==
            if t == tag then contents else if t == tag' then contents' else []
  {
    ContentsOfTagged(tag, contents, t);
    ContentsOfTagged(tag', contents', t);
    ContentsOfConcat(Tagged(tag, contents), Tagged(tag', contents'), t);
  }

  lemma ContentsOfParts(a: seq<CosTlv>, b: seq<CosTlv>, c: seq<CosTlv>, d: CosTlv, e: CosTlv, t: byte)
    ensures ContentsOf(a + b + c + [d] + [e], t) ==
            ContentsOf(a, t) + ContentsOf(b, t) + ContentsOf(c, t) + ContentsOf([d], t) + ContentsOf([e], t)
  {
    ContentsOfConcat(a, b, t);
    ContentsOfConcat(a + b, c, t);
    ContentsOfConcat(a + b + c, [d], t);
    ContentsOfConcat(a + b + c + [d], [e], t);
  }

  /** Concatenation when at most one part is non-empty. */
  lemma OnePart(a: seq<Bytes>, b: seq<Bytes>, c: seq<Bytes>, d: seq<Bytes>, e: seq<Bytes>)
    ensures b == c == d == e == [] ==> a + b + c + d + e == a
    ensures a == c == d == e == [] ==> a + b + c + d + e == b
    ensures a == b == d == e == [] ==> a + b + c + d + e == c
    ensures a == b == c == e == [] ==> a + b + c + d + e == d
    ensures a == b == c == d == [] ==> a + b + c + d + e == e
  {
  }

  function ImageContents(x: LaunchInput, t: byte): seq<Bytes> {
    if t == IMAGE_REF then [x.imageRef]
    else if t == IMAGE_DIGEST then [x.imageDigest]
    else if t == RESTART_POLICY then [PolicyText(x.restartPolicy)]
    else if t == IMAGE_ID && x.imageId.Some? then [x.imageId.value]
    else []
  }

  lemma ContentsOfImage(x: LaunchInput, t: byte)
    ensures ContentsOf(ImageEvents(x), t) == ImageContents(x, t)
  {
    var a, b := CosTlv(IMAGE_REF, x.imageRef), CosTlv(IMAGE_DIGEST, x.imageDigest);
    var c := CosTlv(RESTART_POLICY, PolicyText(x.restartPolicy));
    var ids := if x.imageId.Some? then [x.imageId.value] else [];
    var ref := if t == IMAGE_REF then [x.imageRef] else [];
    var digest := if t == IMAGE_DIGEST then [x.imageDigest] else [];
    var policy := if t == RESTART_POLICY then [PolicyText(x.restartPolicy)] else [];
    var id := if t == IMAGE_ID then ids else [];
    assert ContentsOf(ImageEvents(x), t) == ref + digest + policy + id + [] by {
      assert ContentsOf([a], t) == ref by { ContentsOfOne(a, t); }
      assert ContentsOf([b], t) == digest by { ContentsOfOne(b, t); }
      assert ContentsOf([c], t) == policy by { ContentsOfOne(c, t); }
      assert ContentsOf(Tagged(IMAGE_ID, ids), t) == id by { ContentsOfTagged(IMAGE_ID, ids, t); }
      ContentsOfConcat([a], [b], t);
      ContentsOfConcat([a] + [b], [c], t);
      ContentsOfConcat([a] + [b] + [c], Tagged(IMAGE_ID, ids), t);
    }
    OnePart(ref, digest, policy, id, []);
  }

  /** What a launch wants logged for each event type. */
  function Wanted(x: LaunchInput, t: byte): seq<Bytes>
    requires Formattable(x.overrideEnvs)
  {
    if t == ARG then x.args
    else if t == ENV_VAR then x.envs
    else if t == OVERRIDE_ENV then Formatted(x.overrideEnvs)
    else if t == OVERRIDE_ARG then x.overrideArgs
    else if t == MEMORY_MONITOR then [MonitorEvent(x).content]
    else if t == LAUNCH_SEPARATOR then [[]]
    else ImageContents(x, t)
  }

  function ProcessContents(x: LaunchInput, t: byte): seq<Bytes> {
    if t == ARG then x.args else if t == ENV_VAR then x.envs else []
  }

  function OverrideContents(x: LaunchInput, t: byte): seq<Bytes>
    requires Formattable(x.overrideEnvs)
  {
    if t == OVERRIDE_ENV then Formatted(x.overrideEnvs) else if t == OVERRIDE_ARG then x.overrideArgs else []
  }

  lemma ContentsByPart(x: LaunchInput, t: byte)
    requires Formattable(x.overrideEnvs)
    ensures ContentsOf(LaunchEvents(x), t)
            == ImageContents(x, t) + ProcessContents(x, t) + OverrideContents(x, t)
               + ContentIf(MonitorEvent(x), t) + ContentIf(CosTlv(LAUNCH_SEPARATOR, []), t)
  {
    ContentsOfImage(x, t);
    ContentsOfPair(ARG, x.args, ENV_VAR, x.envs, t);
    ContentsOfPair(OVERRIDE_ENV, Formatted(x.overrideEnvs), OVERRIDE_ARG, x.overrideArgs, t);
    ContentsOfOne(MonitorEvent(x), t);
    ContentsOfOne(CosTlv(LAUNCH_SEPARATOR, []), t);
    ContentsOfParts(ImageEvents(x), ProcessEvents(x), OverrideEvents(x), MonitorEvent(x),
                    CosTlv(LAUNCH_SEPARATOR, []), t);
  }

  /** Every kind of event is in the launch log as often, and in the order, that the launch asked for. */
  lemma ContentsOfLaunch(x: LaunchInput, t: byte)
    requires Formattable(x.overrideEnvs)
    ensures ContentsOf(LaunchEvents(x), t) == Wanted(x, t)
  {
    ContentsByPart(x, t);
    OnePart(ImageContents(x, t), ProcessContents(x, t), OverrideContents(x, t),
            ContentIf(MonitorEvent(x), t), ContentIf(CosTlv(LAUNCH_SEPARATOR, []), t));
  }

  function WantedStreams(x: LaunchInput): Streams
    requires Formattable(x.overrideEnvs)
  {
    Streams(
      [x.imageRef], [x.imageDigest], [PolicyText(x.restartPolicy)], if x.imageId.Some? then [x.imageId.value] else [],
      x.envs, x.args, x.overrideArgs, Formatted(x.overrideEnvs), [MonitorEvent(x).content], [])
  }

  lemma StreamsWanted(es: seq<CosTlv>, x: LaunchInput)
    requires Formattable(x.overrideEnvs)
    requires forall t: byte :: ContentsOf(es, t) == Wanted(x, t)
    ensures StreamsOf(es) == WantedStreams(x)
  {
  }

  /** The verifier finds a restart policy exactly in the launcher's text for it. */
  lemma PolicyRoundTrip(text: Bytes, p: RestartPolicy)
    ensures RestartPolicyValue(text) == Some(p) <==> text == PolicyText(p)
    ensures RestartPolicyValue(text) == Some(p) <==>
            || (text == Ascii("Always") && p.Always?)
            || (text == Ascii("OnFailure") && p.OnFailure?)
            || (text == Ascii("Never") && p.Never?)
  {
    var always, onFailure, never := Ascii("Always"), Ascii("OnFailure"), Ascii("Never");
    assert |always| == 6 && |onFailure| == 9 && |never| == 5;
  }

  lemma WantedState(x: LaunchInput)
    requires Formattable(x.overrideEnvs)
    ensures StateFrom(WantedStreams(x)) == ExpectedState(x)
  {
    FormattedBindings(x.overrideEnvs);
    PolicyRoundTrip(PolicyText(x.restartPolicy), x.restartPolicy);
    assert LastOf([PolicyText(x.restartPolicy)]) == Some(PolicyText(x.restartPolicy));
    assert MemoryOf(LastOf([MonitorEvent(x).content])) == Some(x.monitoring.MemoryOnly?);
  }

  lemma LaunchState(x: LaunchInput)
    requires Formattable(x.overrideEnvs)
    ensures StateOf(LaunchEvents(x)) == ExpectedState(x)
  {
    WantedState(x);
    assert StreamsOf(LaunchEvents(x)) == WantedStreams(x) by {
      forall t: byte ensures ContentsOf(LaunchEvents(x), t) == Wanted(x, t) {
        ContentsOfLaunch(x, t);
      }
      StreamsWanted(LaunchEvents(x), x);
    }
  }

  /** The order in which a launch measures its claims, by event type. */
  function Phase(t: byte): nat {
    match t
    case 0 => 0
    case 1 => 1
    case 2 => 2
    case 3 => 3
    case 4 => 4
    case 5 => 5
    case 7 => 6
    case 6 => 7
    case 9 => 8
    case 8 => 9
    case _ => 10
  }

  ghost predicate InOrder(es: seq<CosTlv>, lo: nat, hi: nat) {
    && (forall i | 0 <= i < |es| :: lo <= Phase(es[i].eventType) <= hi)
    && forall i, j | 0 <= i < j < |es| :: Phase(es[i].eventType) <= Phase(es[j].eventType)
  }

  lemma InOrderConcat(a: seq<CosTlv>, b: seq<CosTlv>, lo: nat, m: nat, n: nat, hi: nat)
    requires InOrder(a, lo, m) && InOrder(b, n, hi) && lo <= m <= n <= hi
    ensures InOrder(a + b, lo, hi)
  {
    var es := a + b;
    forall i | 0 <= i < |es| ensures es[i] == if i < |a| then a[i] else b[i - |a|] {
    }
  }

  /** Reference, digest, restart policy, image ID, arguments, environment, overridden environment, overridden arguments,
      memory monitoring, separator: with the contents of each type given, this fixes the whole sequence. */
  lemma LaunchInOrder(x: LaunchInput)
    requires Formattable(x.overrideEnvs)
    ensures InOrder(LaunchEvents(x), 0, 9)
  {
    var image, process, overrides := ImageEvents(x), ProcessEvents(x), OverrideEvents(x);
    assert InOrder(image, 0, 3);
    InOrderConcat(Tagged(ARG, x.args), Tagged(ENV_VAR, x.envs), 4, 4, 5, 5);
    InOrderConcat(Tagged(OVERRIDE_ENV, Formatted(x.overrideEnvs)), Tagged(OVERRIDE_ARG, x.overrideArgs), 6, 6, 7, 7);
    InOrderConcat(image, process, 0, 3, 4, 5);
    InOrderConcat(image + process, overrides, 0, 5, 6, 7);
    InOrderConcat(ClaimEvents(x), [MonitorEvent(x)], 0, 7, 8, 8);
    InOrderConcat(ClaimEvents(x) + [MonitorEvent(x)], [CosTlv(LAUNCH_SEPARATOR, [])], 0, 8, 9, 9);
  }

  /** The content rules of a launch log come down to its process environment. */
  lemma LaunchEventsOk(x: LaunchInput)
    requires Formattable(x.overrideEnvs)
    ensures EventsOk(LaunchEvents(x)) <==>
            forall i | 0 <= i < |x.envs| :: ParseEnvVar(x.envs[i]).Ok?
  {
    LaunchContents(x);
    LaunchOrder(x);
  }

  ghost predicate ContentsOk(es: seq<CosTlv>) {
    forall i | 0 <= i < |es| :: ContentOk(es[i])
  }

  lemma ContentsOkConcat(a: seq<CosTlv>, b: seq<CosTlv>)
    ensures ContentsOk(a + b) <==> ContentsOk(a) && ContentsOk(b)
  {
    assert forall i | 0 <= i < |a| :: (a + b)[i] == a[i];
    assert forall i | 0 <= i < |b| :: (a + b)[|a| + i] == b[i];
  }

  lemma LaunchContents(x: LaunchInput)
    requires Formattable(x.overrideEnvs)
    ensures ContentsOk(LaunchEvents(x)) <==>
            forall i | 0 <= i < |x.envs| :: ParseEnvVar(x.envs[i]).Ok?
  {
    var image, envs, overrides := ImageEvents(x), Tagged(ENV_VAR, x.envs), Tagged(OVERRIDE_ENV, Formatted(x.overrideEnvs));
    assert ContentsOk(image) by {
      PolicyRoundTrip(PolicyText(x.restartPolicy), x.restartPolicy);
      assert image[2] == CosTlv(RESTART_POLICY, PolicyText(x.restartPolicy));
    }
    assert ContentsOk(envs) <==> forall i | 0 <= i < |x.envs| :: ParseEnvVar(x.envs[i]).Ok? by {
      assert forall i | 0 <= i < |x.envs| :: envs[i] == CosTlv(ENV_VAR, x.envs[i]);
    }
    assert ContentsOk(overrides) by {
      forall i | 0 <= i < |overrides| ensures ContentOk(overrides[i]) {
        ParseIffFormatted(overrides[i].content, x.overrideEnvs[i]);
      }
    }
    ContentsOkConcat(Tagged(ARG, x.args), envs);
    ContentsOkConcat(overrides, Tagged(OVERRIDE_ARG, x.overrideArgs));
    ContentsOkConcat(image, ProcessEvents(x));
    ContentsOkConcat(image + ProcessEvents(x), OverrideEvents(x));
    ContentsOkConcat(ClaimEvents(x), [MonitorEvent(x)]);
    ContentsOkConcat(ClaimEvents(x) + [MonitorEvent(x)], [CosTlv(LAUNCH_SEPARATOR, [])]);
  }

  lemma LaunchOrder(x: LaunchInput)
    requires Formattable(x.overrideEnvs)
    ensures OrderOk(LaunchEvents(x))
  {
    var es := LaunchEvents(x);
    forall i | 0 <= i < |es| - 1 ensures es[i].eventType != LAUNCH_SEPARATOR {
      assert es[i] == (ClaimEvents(x) + [MonitorEvent(x)])[i];
    }
    forall i, j | 0 <= i < j < |es| ensures !(ImageEvent(es[i].eventType) && es[i].eventType == es[j].eventType) {
      if es[i].eventType == es[j].eventType {
        var t := es[i].eventType;
        TwoOccurrences(es, i, j);
        ContentsOfLaunch(x, t);
      }
    }
  }

  /** Two events of a type contribute two contents. */
  lemma {:induction false} TwoOccurrences(es: seq<CosTlv>, i: nat, j: nat)
    requires i < j < |es| && es[i].eventType == es[j].eventType
    ensures |ContentsOf(es, es[i].eventType)| >= 2
  {
    var t := es[i].eventType;
    assert es == es[..j] + es[j..] && es[..j] == es[..i] + es[i..j];
    ContentsOfConcat(es[..j], es[j..], t);
    ContentsOfConcat(es[..i], es[i..j], t);
    FirstContributes(es[i..j]);
    FirstContributes(es[j..]);
  }

  lemma FirstContributes(es: seq<CosTlv>)
    requires es != []
    ensures |ContentsOf(es, es[0].eventType)| >= 1
  {
    assert es == [es[0]] + es[1..];
    ContentsOfConcat([es[0]], es[1..], es[0].eventType);
    ContentsOfOne(es[0], es[0].eventType);
  }

  lemma MeasuredRecordsOk(h: Hash, kind: RootKind, algs: seq<HashAlg>, es: seq<CosTlv>)
    requires AllMeasurable(es)
    ensures Events(RecordsFor(h, kind, algs, es)) == es
    ensures forall r | r in RecordsFor(h, kind, algs, es) :: RecordOk(h, r, RecordType(kind))
  {
    var log := RecordsFor(h, kind, algs, es);
    forall i | 0 <= i < |es| ensures EventOf(log[i]) == es[i] && RecordOk(h, log[i], RecordType(kind)) {
      ParseIffEncoded(log[i].content, es[i]);
    }
    assert Events(log) == es;
  }

  /** A measured log that replays is accepted exactly when its events are. */
  lemma MeasuredAccepted(h: Hash, kind: RootKind, algs: seq<HashAlg>, es: seq<CosTlv>, bank: MrBank)
    requires AllMeasurable(es) && Replays(h, RecordsFor(h, kind, algs, es), bank)
    ensures Events(RecordsFor(h, kind, algs, es)) == es
    ensures AcceptedBy(h, RecordsFor(h, kind, algs, es), bank, RecordType(kind)) <==> EventsOk(es)
  {
    MeasuredRecordsOk(h, kind, algs, es);
  }

  /** The verifier accepts the log of a measured launch exactly when every process environment entry is NAME=VALUE,
      and then reports exactly what was launched. */
  lemma HonestLaunchRoundTrip(h: Hash, kind: RootKind, algs: seq<HashAlg>, x: LaunchInput, bank: MrBank)
    requires Formattable(x.overrideEnvs) && AllMeasurable(LaunchEvents(x)) && bank.alg in algs
    requires RecordIndex(kind) in bank.regs
    requires bank.regs[RecordIndex(kind)]
             == Fold(h, bank.alg, Zeros(DigestSize(bank.alg)), EventDigests(h, bank.alg, LaunchEvents(x)))
    ensures var log := RecordsFor(h, kind, algs, LaunchEvents(x));
            && StateOf(Events(log)) == ExpectedState(x)
            && (AcceptedBy(h, log, bank, RecordType(kind)) <==>
                  forall i | 0 <= i < |x.envs| :: ParseEnvVar(x.envs[i]).Ok?)
  {
    MeasuredLogReplays(h, kind, algs, LaunchEvents(x), bank);
    MeasuredAccepted(h, kind, algs, LaunchEvents(x), bank);
    LaunchEventsOk(x);
    LaunchState(x);
  }

  /** End to end: evidence produced by a run is accepted on every quoted bank under the same condition,
      with the launched state. */
  lemma EvidenceRoundTrip(e: Evidence, h: Hash, kind: RootKind, algs: seq<HashAlg>, x: LaunchInput, a: HashAlg)
    requires Formattable(x.overrideEnvs) && Consistent(e, h, kind, algs, LaunchEvents(x)) && a in algs
    ensures StateOf(Events(e.log)) == ExpectedState(x)
    ensures AcceptedBy(h, e.log, e.banks[a], RecordType(kind)) <==>
            forall i | 0 <= i < |x.envs| :: ParseEnvVar(x.envs[i]).Ok?
  {
    MeasuredAccepted(h, kind, algs, LaunchEvents(x), e.banks[a]);
    LaunchEventsOk(x);
    LaunchState(x);
  }

  // ----- Finality

  lemma {:induction false} AcceptedDigests(h: Hash, log: seq<Record>, a: HashAlg, kind: RootKind)
    requires forall i | 0 <= i < |log| :: RecordOk(h, log[i], RecordType(kind)) && a in log[i].digests
    ensures AllMeasurable(Events(log))
    ensures DigestsAt(log, a, RecordIndex(kind)) == EventDigests(h, a, Events(log))
  {
    if log != [] {
      var front, last := log[..|log| - 1], log[|log| - 1];
      AcceptedDigests(h, front, a, kind);
      AcceptedDigest(h, last, a, kind);
      assert log == front + [last];
      EventsSnoc(front, last);
      EventDigestsSnoc(h, a, Events(front), EventOf(last));
      DigestsAtSnoc(front, last, a, RecordIndex(kind));
    }
  }

  lemma AcceptedDigest(h: Hash, r: Record, a: HashAlg, kind: RootKind)
    requires RecordOk(h, r, RecordType(kind)) && a in r.digests
    ensures r.index == RecordIndex(kind) && Measurable(EventOf(r)) && r.digests[a] == EventDigest(h, a, EventOf(r))
  {
    MeasurableIff(EventOf(r));
    assert GenerateDigest(h, a, EventOf(r)) == Ok(r.digests[a]);
  }

  /** A non-empty accepted log is folded into the register it is accepted against. */
  lemma AcceptedFold(h: Hash, log: seq<Record>, bank: MrBank, kind: RootKind)
    requires AcceptedBy(h, log, bank, RecordType(kind)) && log != []
    ensures AllMeasurable(Events(log)) && OrderOk(Events(log))
    ensures DigestsAt(log, bank.alg, RecordIndex(kind)) == EventDigests(h, bank.alg, Events(log))
    ensures RecordIndex(kind) in bank.regs
    ensures bank.regs[RecordIndex(kind)]
            == Fold(h, bank.alg, Zeros(DigestSize(bank.alg)), EventDigests(h, bank.alg, Events(log)))
  {
    AcceptedDigests(h, log, bank.alg, kind);
    AcceptedDigest(h, log[0], bank.alg, kind);
  }

  ghost function EventMessages(es: seq<CosTlv>): set<Bytes> {
    set i | 0 <= i < |es| && Measurable(es[i]) :: DigestMessage(es[i]).value
  }

  /** Every message hashed when a register is extended with `ds` for the events `es`, from zero. */
  ghost function RunMessages(h: Hash, a: HashAlg, es: seq<CosTlv>, ds: seq<Bytes>): set<Bytes> {
    EventMessages(es) + FoldMessages(h, a, Zeros(DigestSize(a)), ds)
  }

  /** Every message hashed by a run that measured `es` and then extended `later`, and by the verifier of `log`. */
  ghost function Messages(h: Hash, a: HashAlg, kind: RootKind, es: seq<CosTlv>, later: seq<Bytes>,
                          log: seq<Record>): set<Bytes>
    requires AllMeasurable(es)
  {
    RunMessages(h, a, es, EventDigests(h, a, es) + later)
    + RunMessages(h, a, Events(log), DigestsAt(log, a, RecordIndex(kind)))
  }

  lemma EventDigestsInjective(h: Hash, a: HashAlg, es: seq<CosTlv>, fs: seq<CosTlv>)
    requires AllMeasurable(es) && AllMeasurable(fs)
    requires NoCollision(h, a, EventMessages(es) + EventMessages(fs))
    requires EventDigests(h, a, es) == EventDigests(h, a, fs)
    ensures es == fs
  {
    assert |es| == |EventDigests(h, a, es)| == |EventDigests(h, a, fs)| == |fs|;
    forall i | 0 <= i < |es| ensures es[i] == fs[i] {
      var x, y := DigestMessage(es[i]).value, DigestMessage(fs[i]).value;
      assert x in EventMessages(es) && y in EventMessages(fs);
      assert h(a, x) == EventDigests(h, a, es)[i] == EventDigests(h, a, fs)[i] == h(a, y);
      DigestMessageInjective(es[i], fs[i]);
    }
  }

  lemma EventDigestsPrefix(h: Hash, a: HashAlg, es: seq<CosTlv>, n: nat)
    requires AllMeasurable(es) && n <= |es|
    ensures EventDigests(h, a, es[..n]) == EventDigests(h, a, es)[..n]
  {
  }

  /** Once a launch has measured its separator, whatever is extended later: a non-empty log is accepted
      against the register only if nothing was extended later, and only if it lists exactly the launch's events. */
  lemma Finality(h: Hash, kind: RootKind, es: seq<CosTlv>, later: seq<Bytes>, log: seq<Record>, bank: MrBank)
    requires ProperHash(h)
    requires AllMeasurable(es) && es != [] && es[|es| - 1].eventType == LAUNCH_SEPARATOR
    requires Sized(later, DigestSize(bank.alg))
    requires RecordIndex(kind) in bank.regs
    requires bank.regs[RecordIndex(kind)]
             == Fold(h, bank.alg, Zeros(DigestSize(bank.alg)), EventDigests(h, bank.alg, es) + later)
    requires AcceptedBy(h, log, bank, RecordType(kind))
    requires SoundOn(h, bank.alg, Messages(h, bank.alg, kind, es, later, log))
    ensures log == [] || (later == [] && Events(log) == es)
  {
    if log != [] {
      AcceptedFold(h, log, bank, kind);
      EventFinality(h, bank.alg, es, later, Events(log), Messages(h, bank.alg, kind, es, later, log));
    }
  }

  /** Finality over events: what folds to the register value of a finished launch is that launch. */
  lemma EventFinality(h: Hash, a: HashAlg, es: seq<CosTlv>, later: seq<Bytes>, fs: seq<CosTlv>, ms: set<Bytes>)
    requires ProperHash(h) && AllMeasurable(es) && AllMeasurable(fs) && OrderOk(fs)
    requires es != [] && es[|es| - 1].eventType == LAUNCH_SEPARATOR
    requires Sized(later, DigestSize(a))
    requires Fold(h, a, Zeros(DigestSize(a)), EventDigests(h, a, es) + later)
             == Fold(h, a, Zeros(DigestSize(a)), EventDigests(h, a, fs))
    requires RunMessages(h, a, es, EventDigests(h, a, es) + later) <= ms
    requires RunMessages(h, a, fs, EventDigests(h, a, fs)) <= ms
    requires SoundOn(h, a, ms)
    ensures later == [] && fs == es
  {
    MatchingDigests(h, a, es, later, fs, ms);
    SeparatorEndsLog(h, a, es, later, fs);
  }

  /** Events whose digests fold to the same register value as a run's extends have exactly those digests. */
  lemma MatchingDigests(h: Hash, a: HashAlg, es: seq<CosTlv>, later: seq<Bytes>, fs: seq<CosTlv>, ms: set<Bytes>)
    requires ProperHash(h) && AllMeasurable(es) && AllMeasurable(fs)
    requires Sized(later, DigestSize(a))
    requires Fold(h, a, Zeros(DigestSize(a)), EventDigests(h, a, es) + later)
             == Fold(h, a, Zeros(DigestSize(a)), EventDigests(h, a, fs))
    requires FoldMessages(h, a, Zeros(DigestSize(a)), EventDigests(h, a, es) + later) <= ms
    requires FoldMessages(h, a, Zeros(DigestSize(a)), EventDigests(h, a, fs)) <= ms
    requires SoundOn(h, a, ms)
    ensures EventDigests(h, a, fs) == EventDigests(h, a, es) + later
  {
    FoldInjective(h, a, EventDigests(h, a, es) + later, EventDigests(h, a, fs), ms);
  }

  /** A log that matches a finished launch's digests contains its separator, so it has nothing after it. */
  lemma SeparatorEndsLog(h: Hash, a: HashAlg, es: seq<CosTlv>, later: seq<Bytes>, fs: seq<CosTlv>)
    requires AllMeasurable(es) && AllMeasurable(fs) && OrderOk(fs)
    requires es != [] && es[|es| - 1].eventType == LAUNCH_SEPARATOR
    requires EventDigests(h, a, fs) == EventDigests(h, a, es) + later
    requires NoCollision(h, a, EventMessages(es) + EventMessages(fs))
    ensures later == [] && fs == es
  {
    var n := |es|;
    var gs := fs[..n];
    EventDigestsPrefix(h, a, fs, n);
    assert EventDigests(h, a, gs) == EventDigests(h, a, es);
    assert EventMessages(gs) <= EventMessages(fs) by {
      assert forall i | 0 <= i < n :: gs[i] == fs[i];
    }
    EventDigestsInjective(h, a, es, gs);
    assert fs[n - 1].eventType == LAUNCH_SEPARATOR;
    assert |fs| == n;
  }

  /** Finality for a launch: the only state any non-empty log can yield is the launched one. */
  lemma LaunchFinality(h: Hash, kind: RootKind, x: LaunchInput, later: seq<Bytes>, log: seq<Record>, bank: MrBank)
    requires ProperHash(h) && Formattable(x.overrideEnvs) && AllMeasurable(LaunchEvents(x))
    requires Sized(later, DigestSize(bank.alg))
    requires RecordIndex(kind) in bank.regs
    requires bank.regs[RecordIndex(kind)]
             == Fold(h, bank.alg, Zeros(DigestSize(bank.alg)), EventDigests(h, bank.alg, LaunchEvents(x)) + later)
    requires AcceptedBy(h, log, bank, RecordType(kind)) && log != []
    requires SoundOn(h, bank.alg, Messages(h, bank.alg, kind, LaunchEvents(x), later, log))
    ensures later == [] && StateOf(Events(log)) == ExpectedState(x)
  {
    Finality(h, kind, LaunchEvents(x), later, log, bank);
    LaunchState(x);
  }

  /** The empty log is the exception: it is accepted against every bank and yields the empty state. */
  lemma EmptyLogAlwaysAccepted(h: Hash, bank: MrBank, t: MrType)
    ensures AcceptedBy(h, [], bank, t) && StateOf(Events([])) == EMPTY_STATE
    ensures EMPTY_STATE.restartPolicy == Always && EMPTY_STATE.ccMode == Unset && EMPTY_STATE.memoryEnabled == None
  {
  }
}
