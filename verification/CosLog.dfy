/** The verifier's side of the COS event log: replay against a register bank, then the fold into a state. */
module CosLog {
  import opened Basics
  import opened Hashing
  import opened CosTlvs
  import opened EnvVars

  datatype MrType = PcrType | CcmrType | OtherMr(code: nat)

  datatype Record = Record(recNum: nat, indexType: MrType, index: nat, digests: map<HashAlg, Bytes>, content: Tlv)

  /** The registers of one bank, by the index that log records use for them. */
  datatype MrBank = MrBank(alg: HashAlg, regs: map<nat, Bytes>)

  datatype RestartPolicy = Always | OnFailure | Never

  datatype CcMode = Unset | On | Off | DevTools

  datatype CosState = CosState(
    imageReference: Bytes,
    imageDigest: Bytes,
    restartPolicy: RestartPolicy,
    imageId: Bytes,
    envVars: map<Bytes, Bytes>,
    args: seq<Bytes>,
    overriddenArgs: seq<Bytes>,
    overriddenEnvVars: map<Bytes, Bytes>,
    memoryEnabled: Option<bool>,
    ccMode: CcMode)

  const EMPTY_STATE := CosState([], [], Always, [], map[], [], [], map[], None, Unset)

  datatype LogError =
    | ReplayFailed
    | WrongRegisterType
    | WrongRegister
    | BadContent
    | DigestMismatch
    | AfterSeparator
    | SecondImageEvent
    | UnknownRestartPolicy
    | BadEnvVar
    | UnknownCcMode
    | UnknownEvent

  function RestartPolicyValue(b: Bytes): Option<RestartPolicy> {
    if b == Ascii("Always") then Some(Always)
    else if b == Ascii("OnFailure") then Some(OnFailure)
    else if b == Ascii("Never") then Some(Never)
    else None
  }

  function CcModeValue(b: Bytes): Option<CcMode> {
    if b == Ascii("UNSET") then Some(Unset)
    else if b == Ascii("ON") then Some(On)
    else if b == Ascii("OFF") then Some(Off)
    else if b == Ascii("DEVTOOLS") then Some(DevTools)
    else None
  }

  /** The text of a GPU confidential computing mode. */
  function CcModeText(m: CcMode): Bytes {
    match m
    case Unset => Ascii("UNSET")
    case On => Ascii("ON")
    case Off => Ascii("OFF")
    case DevTools => Ascii("DEVTOOLS")
  }

  /** A mode is found exactly in its own text. */
  lemma CcModeExact(text: Bytes, m: CcMode)
    ensures CcModeValue(text) == Some(m) <==> text == CcModeText(m)
  {
    var unset, on, off, devTools := Ascii("UNSET"), Ascii("ON"), Ascii("OFF"), Ascii("DEVTOOLS");
    assert |unset| == 5 && |on| == 2 && |off| == 3 && |devTools| == 8;
  }

  // ----- Library contracts: replay and digest verification

  /** The digests that the log claims were extended into register `index` of bank `a`. */
  function DigestsAt(log: seq<Record>, a: HashAlg, index: nat): seq<Bytes> {
    if log == [] then []
    else
      var front, last := log[..|log| - 1], log[|log| - 1];
      DigestsAt(front, a, index) + if last.index == index && a in last.digests then [last.digests[a]] else []
  }

  lemma DigestsAtSnoc(log: seq<Record>, r: Record, a: HashAlg, index: nat)
    ensures DigestsAt(log + [r], a, index) ==
            DigestsAt(log, a, index) + if r.index == index && a in r.digests then [r.digests[a]] else []
  {
    assert (log + [r])[..|log|] == log;
  }

  /** Replaying starts every register that the log names at zero, and compares only those. */
  predicate Replays(h: Hash, log: seq<Record>, bank: MrBank) {
    forall i | 0 <= i < |log| ::
      && bank.alg in log[i].digests
      && log[i].index in bank.regs
      && bank.regs[log[i].index]
         == Fold(h, bank.alg, Zeros(DigestSize(bank.alg)), DigestsAt(log, bank.alg, log[i].index))
  }

  predicate VerifyDigests(h: Hash, c: CosTlv, digests: map<HashAlg, Bytes>) {
    forall a | a in digests :: GenerateDigest(h, a, c) == Ok(digests[a])
  }

  // ----- What an acceptable log is, event by event

  function EventOf(r: Record): CosTlv {
    match ParseToCosTlv(r.content)
    case Ok(c) => c
    case Err(_) => CosTlv(255, [])
  }

  function Events(log: seq<Record>): (es: seq<CosTlv>)
    ensures |es| == |log|
  {
    seq(|log|, i requires 0 <= i < |log| => EventOf(log[i]))
  }

  predicate RecordOk(h: Hash, r: Record, t: MrType) {
    && r.indexType == t
    && ((t.PcrType? && r.index == COS_EVENT_PCR) || (t.CcmrType? && r.index == COS_CCELMR_INDEX))
    && ParseToCosTlv(r.content).Ok?
    && VerifyDigests(h, EventOf(r), r.digests)
  }

  predicate ContentOk(e: CosTlv) {
    && e.eventType <= GPU_CC_MODE
    && (e.eventType == RESTART_POLICY ==> RestartPolicyValue(e.content).Some?)
    && (e.eventType == ENV_VAR || e.eventType == OVERRIDE_ENV ==> ParseEnvVar(e.content).Ok?)
    && (e.eventType == GPU_CC_MODE ==> CcModeValue(e.content).Some?)
  }

  predicate ImageEvent(t: byte) {
    t == IMAGE_REF || t == IMAGE_DIGEST || t == IMAGE_ID
  }

  /** Nothing follows the separator, and an image event is repeated only after empty ones. */
  predicate OrderOk(es: seq<CosTlv>) {
    && (forall i | 0 <= i < |es| - 1 :: es[i].eventType != LAUNCH_SEPARATOR)
    && (forall i, j | 0 <= i < j < |es| && ImageEvent(es[i].eventType) && es[i].eventType == es[j].eventType ::
          es[i].content == [])
  }

  predicate EventsOk(es: seq<CosTlv>) {
    && (forall i | 0 <= i < |es| :: ContentOk(es[i]))
    && OrderOk(es)
  }

  predicate Acceptable(h: Hash, log: seq<Record>, t: MrType) {
    && (forall i | 0 <= i < |log| :: RecordOk(h, log[i], t))
    && EventsOk(Events(log))
  }

  // ----- What state a log describes, field by field

  /** Contents of the events of type `t`, in order. */
  function ContentsOf(es: seq<CosTlv>, t: byte): seq<Bytes> {
    if es == [] then []
    else
      var front, last := es[..|es| - 1], es[|es| - 1];
      ContentsOf(front, t) + if last.eventType == t then [last.content] else []
  }

  function LastOf(cs: seq<Bytes>): Option<Bytes> {
    if cs == [] then None else Some(cs[|cs| - 1])
  }

  function OrEmpty(o: Option<Bytes>): Bytes {
    match o case Some(b) => b case None => []
  }

  /** The variables defined by NAME=VALUE texts, the later one winning. */
  function Bindings(texts: seq<Bytes>): map<Bytes, Bytes> {
    if texts == [] then map[]
    else
      var front, last := Bindings(texts[..|texts| - 1]), texts[|texts| - 1];
      match ParseEnvVar(last)
      case Ok(e) => front[e.name := e.value]
      case Err(_) => front
  }

  function RestartOf(o: Option<Bytes>): RestartPolicy {
    if o.Some? && RestartPolicyValue(o.value).Some? then RestartPolicyValue(o.value).value else Always
  }

  function CcModeOf(o: Option<Bytes>): CcMode {
    if o.Some? && CcModeValue(o.value).Some? then CcModeValue(o.value).value else Unset
  }

  function MemoryOf(o: Option<Bytes>): Option<bool> {
    match o case Some(b) => Some(b == [1]) case None => None
  }

  /** The events of a log, sorted by type. */
  datatype Streams = Streams(
    refs: seq<Bytes>, digests: seq<Bytes>, policies: seq<Bytes>, ids: seq<Bytes>, envs: seq<Bytes>, args: seq<Bytes>,
    overrideArgs: seq<Bytes>, overrideEnvs: seq<Bytes>, monitors: seq<Bytes>, modes: seq<Bytes>)

  function StreamsOf(es: seq<CosTlv>): Streams {
    Streams(
      ContentsOf(es, IMAGE_REF), ContentsOf(es, IMAGE_DIGEST), ContentsOf(es, RESTART_POLICY), ContentsOf(es, IMAGE_ID),
      ContentsOf(es, ENV_VAR), ContentsOf(es, ARG), ContentsOf(es, OVERRIDE_ARG), ContentsOf(es, OVERRIDE_ENV),
      ContentsOf(es, MEMORY_MONITOR), ContentsOf(es, GPU_CC_MODE))
  }

  function StateFrom(x: Streams): CosState {
    CosState(
      OrEmpty(LastOf(x.refs)),
      OrEmpty(LastOf(x.digests)),
      RestartOf(LastOf(x.policies)),
      OrEmpty(LastOf(x.ids)),
      Bindings(x.envs),
      x.args,
      x.overrideArgs,
      Bindings(x.overrideEnvs),
      MemoryOf(LastOf(x.monitors)),
      CcModeOf(LastOf(x.modes)))
  }

  function StateOf(es: seq<CosTlv>): CosState {
    StateFrom(StreamsOf(es))
  }

  lemma ContentsOfSnoc(es: seq<CosTlv>, e: CosTlv, t: byte)
    ensures ContentsOf(es + [e], t) == if e.eventType == t then ContentsOf(es, t) + [e.content] else ContentsOf(es, t)
  {
    assert (es + [e])[..|es|] == es;
  }

  lemma BindingsSnoc(texts: seq<Bytes>, text: Bytes)
    ensures Bindings(texts + [text]) ==
            match ParseEnvVar(text)
            case Ok(e) => Bindings(texts)[e.name := e.value]
            case Err(_) => Bindings(texts)
  {
    assert (texts + [text])[..|texts|] == texts;
  }

  /** What the last-one-wins bindings hold, without their recursion. */
  lemma {:induction false} BindingsMeaning(texts: seq<Bytes>, name: Bytes, value: Bytes)
    ensures name in Bindings(texts) && Bindings(texts)[name] == value
            <==> exists i :: 0 <= i < |texts| && ParseEnvVar(texts[i]) == Ok(EnvVar(name, value))
                             && forall j | i < j < |texts| ::
                                  ParseEnvVar(texts[j]).Ok? ==> ParseEnvVar(texts[j]).value.name != name
  {
    if texts != [] {
      var front, last := texts[..|texts| - 1], texts[|texts| - 1];
      assert texts == front + [last];
      BindingsSnoc(front, last);
      BindingsMeaning(front, name, value);
      if ParseEnvVar(last).Ok? && ParseEnvVar(last).value.name == name {
        assert texts[|texts| - 1] == last;
      } else {
        forall i | 0 <= i < |front| ensures texts[i] == front[i] {}
      }
    }
  }

  // ----- The fold itself

  predicate HasSeparator(es: seq<CosTlv>) {
    exists i :: 0 <= i < |es| && es[i].eventType == LAUNCH_SEPARATOR
  }

  /** Whether an event can follow a log without separator that describes `s`. */
  predicate Applies(s: CosState, e: CosTlv) {
    && ContentOk(e)
    && (e.eventType == IMAGE_REF ==> s.imageReference == [])
    && (e.eventType == IMAGE_DIGEST ==> s.imageDigest == [])
    && (e.eventType == IMAGE_ID ==> s.imageId == [])
  }

  /** The state after one more event that is accepted. */
  function After(s: CosState, e: CosTlv): CosState
    requires ContentOk(e)
  {
    if e.eventType == IMAGE_REF then s.(imageReference := e.content)
    else if e.eventType == IMAGE_DIGEST then s.(imageDigest := e.content)
    else if e.eventType == RESTART_POLICY then s.(restartPolicy := RestartPolicyValue(e.content).value)
    else if e.eventType == IMAGE_ID then s.(imageId := e.content)
    else if e.eventType == ARG then s.(args := s.args + [e.content])
    else if e.eventType == ENV_VAR then
      var v := ParseEnvVar(e.content).value; s.(envVars := s.envVars[v.name := v.value])
    else if e.eventType == OVERRIDE_ARG then s.(overriddenArgs := s.overriddenArgs + [e.content])
    else if e.eventType == OVERRIDE_ENV then
      var v := ParseEnvVar(e.content).value; s.(overriddenEnvVars := s.overriddenEnvVars[v.name := v.value])
    else if e.eventType == LAUNCH_SEPARATOR then s
    else if e.eventType == MEMORY_MONITOR then s.(memoryEnabled := Some(e.content == [1]))
    else s.(ccMode := CcModeValue(e.content).value)
  }

  function Push(x: Streams, e: CosTlv): Streams {
    var c := [e.content];
    if e.eventType == IMAGE_REF then x.(refs := x.refs + c)
    else if e.eventType == IMAGE_DIGEST then x.(digests := x.digests + c)
    else if e.eventType == RESTART_POLICY then x.(policies := x.policies + c)
    else if e.eventType == IMAGE_ID then x.(ids := x.ids + c)
    else if e.eventType == ARG then x.(args := x.args + c)
    else if e.eventType == ENV_VAR then x.(envs := x.envs + c)
    else if e.eventType == OVERRIDE_ARG then x.(overrideArgs := x.overrideArgs + c)
    else if e.eventType == OVERRIDE_ENV then x.(overrideEnvs := x.overrideEnvs + c)
    else if e.eventType == MEMORY_MONITOR then x.(monitors := x.monitors + c)
    else if e.eventType == GPU_CC_MODE then x.(modes := x.modes + c)
    else x
  }

  lemma StreamsOfSnoc(es: seq<CosTlv>, e: CosTlv)
    ensures StreamsOf(es + [e]) == Push(StreamsOf(es), e)
  {
    forall t: byte ensures ContentsOf(es + [e], t) == ContentsOf(es, t) + if e.eventType == t then [e.content] else [] {
      ContentsOfSnoc(es, e, t);
    }
  }

  /** One more event changes exactly the field its type feeds. */
  lemma StateOfSnoc(es: seq<CosTlv>, e: CosTlv)
    requires ContentOk(e)
    ensures StateOf(es + [e]) == After(StateOf(es), e)
  {
    StreamsOfSnoc(es, e);
    StateFromPush(StreamsOf(es), e);
  }

  lemma StateFromPush(x: Streams, e: CosTlv)
    requires ContentOk(e)
    ensures StateFrom(Push(x, e)) == After(StateFrom(x), e)
  {
    if e.eventType == ENV_VAR {
      BindingsSnoc(x.envs, e.content);
    } else if e.eventType == OVERRIDE_ENV {
      BindingsSnoc(x.overrideEnvs, e.content);
    }
  }

  /** While a log is acceptable, an image field is empty exactly when all its events so far were. */
  lemma {:induction false} LastContentEmpty(es: seq<CosTlv>, t: byte)
    requires OrderOk(es) && ImageEvent(t)
    ensures OrEmpty(LastOf(ContentsOf(es, t))) == [] <==>
            forall i | 0 <= i < |es| && es[i].eventType == t :: es[i].content == []
  {
    if es != [] {
      var front, last := es[..|es| - 1], es[|es| - 1];
      assert es == front + [last];
      ContentsOfSnoc(front, last, t);
      LastContentEmpty(front, t);
      if last.eventType == t {
        forall i | 0 <= i < |front| && es[i].eventType == t ensures es[i].content == [] {
          assert es[|es| - 1].eventType == t;
        }
      } else {
        forall i | 0 <= i < |front| ensures es[i] == front[i] {}
      }
    }
  }

  lemma OrderOkSnoc(es: seq<CosTlv>, e: CosTlv)
    ensures OrderOk(es + [e]) <==>
            && OrderOk(es)
            && (forall i | 0 <= i < |es| :: es[i].eventType != LAUNCH_SEPARATOR)
            && (ImageEvent(e.eventType) ==> forall i | 0 <= i < |es| && es[i].eventType == e.eventType :: es[i].content == [])
  {
    var es' := es + [e];
    assert forall i | 0 <= i < |es| :: es'[i] == es[i];
    assert es'[|es|] == e;
  }

  lemma EventsOkSnoc(es: seq<CosTlv>, e: CosTlv)
    ensures EventsOk(es + [e]) <==> EventsOk(es) && !HasSeparator(es) && Applies(StateOf(es), e)
  {
    OrderOkSnoc(es, e);
    var es' := es + [e];
    assert forall i | 0 <= i < |es| :: es'[i] == es[i];
    assert es'[|es|] == e;
    if OrderOk(es) {
      LastContentEmpty(es, IMAGE_REF);
      LastContentEmpty(es, IMAGE_DIGEST);
      LastContentEmpty(es, IMAGE_ID);
    }
  }

  lemma {:induction false} EventsOkPrefix(es: seq<CosTlv>, fs: seq<CosTlv>)
    requires EventsOk(es + fs)
    ensures EventsOk(es)
  {
    if fs == [] {
      assert es + fs == es;
    } else {
      var front, last := fs[..|fs| - 1], fs[|fs| - 1];
      assert es + fs == (es + front) + [last];
      EventsOkSnoc(es + front, last);
      EventsOkPrefix(es, front);
    }
  }

  lemma EventsSnoc(log: seq<Record>, r: Record)
    ensures Events(log + [r]) == Events(log) + [EventOf(r)]
  {
  }

  lemma EventsSplit(log: seq<Record>, n: nat)
    requires n < |log|
    ensures Events(log[..n + 1]) == Events(log[..n]) + [EventOf(log[n])]
    ensures Events(log) == Events(log[..n + 1]) + Events(log[n + 1..])
  {
  }

  /** What the fold knows after `n` records. */
  ghost predicate Progress(h: Hash, log: seq<Record>, t: MrType, n: nat, s: CosState, seenSeparator: bool) {
    && n <= |log|
    && (forall i | 0 <= i < n :: RecordOk(h, log[i], t))
    && EventsOk(Events(log[..n]))
    && s == StateOf(Events(log[..n]))
    && seenSeparator == HasSeparator(Events(log[..n]))
  }

  method GetVerifiedCosState(h: Hash, log: seq<Record>, registerType: MrType) returns (r: Result<CosState, LogError>)
    ensures r.Ok? <==> Acceptable(h, log, registerType)
    ensures r.Ok? ==> r.value == StateOf(Events(log))
  {
    var s := EMPTY_STATE;
    var seenSeparator := false;
    var n := 0;
    while n < |log|
      invariant Progress(h, log, registerType, n, s, seenSeparator)
    {
      var error := CheckRecord(h, log[n], registerType);
      if error.Some? {
        return Err(error.value);
      }
      if seenSeparator {
        NothingFollows(h, log, registerType, n, s, seenSeparator);
        return Err(AfterSeparator);
      }
      var next := ApplyEvent(s, EventOf(log[n]));
      if next.Err? {
        NothingFollows(h, log, registerType, n, s, seenSeparator);
        return Err(next.error);
      }
      ProgressStep(h, log, registerType, n, s, seenSeparator);
      s := next.value;
      seenSeparator := EventOf(log[n]).eventType == LAUNCH_SEPARATOR;
      n := n + 1;
    }
    assert log[..n] == log;
    return Ok(s);
  }

  /** A record that cannot follow makes the whole log unacceptable. */
  lemma NothingFollows(h: Hash, log: seq<Record>, t: MrType, n: nat, s: CosState, seenSeparator: bool)
    requires Progress(h, log, t, n, s, seenSeparator) && n < |log|
    requires seenSeparator || !Applies(s, EventOf(log[n]))
    ensures !Acceptable(h, log, t)
  {
    var es, e := Events(log[..n]), EventOf(log[n]);
    EventsSplit(log, n);
    EventsOkSnoc(es, e);
    if EventsOk(Events(log)) {
      EventsOkPrefix(es + [e], Events(log[n + 1..]));
    }
  }

  lemma ProgressStep(h: Hash, log: seq<Record>, t: MrType, n: nat, s: CosState, seenSeparator: bool)
    requires Progress(h, log, t, n, s, seenSeparator) && n < |log| && !seenSeparator
    requires RecordOk(h, log[n], t) && Applies(s, EventOf(log[n]))
    ensures Progress(h, log, t, n + 1, After(s, EventOf(log[n])), EventOf(log[n]).eventType == LAUNCH_SEPARATOR)
  {
    var es, e := Events(log[..n]), EventOf(log[n]);
    EventsSplit(log, n);
    EventsOkSnoc(es, e);
    StateOfSnoc(es, e);
    HasSeparatorSnoc(es, e);
  }

  lemma HasSeparatorSnoc(es: seq<CosTlv>, e: CosTlv)
    ensures HasSeparator(es + [e]) <==> HasSeparator(es) || e.eventType == LAUNCH_SEPARATOR
  {
    var es' := es + [e];
    assert forall i | 0 <= i < |es| :: es'[i] == es[i];
    assert es'[|es|] == e;
  }

  /** The checks made on a record before its event is interpreted. */
  method CheckRecord(h: Hash, record: Record, registerType: MrType) returns (e: Option<LogError>)
    ensures e.None? <==> RecordOk(h, record, registerType)
  {
    if record.indexType != registerType {
      return Some(WrongRegisterType);
    }
    match record.indexType {
      case PcrType => if record.index != COS_EVENT_PCR { return Some(WrongRegister); }
      case CcmrType => if record.index != COS_CCELMR_INDEX { return Some(WrongRegister); }
      case OtherMr(_) => return Some(WrongRegisterType);
    }
    if ParseToCosTlv(record.content).Err? {
      return Some(BadContent);
    }
    if !VerifyDigests(h, EventOf(record), record.digests) {
      return Some(DigestMismatch);
    }
    return None;
  }

  /** The switch on the event type. */
  method ApplyEvent(s: CosState, e: CosTlv) returns (r: Result<CosState, LogError>)
    ensures r.Ok? <==> Applies(s, e)
    ensures r.Ok? ==> r.value == After(s, e)
  {
    if e.eventType == IMAGE_REF {
      if s.imageReference != [] { return Err(SecondImageEvent); }
      return Ok(s.(imageReference := e.content));
    } else if e.eventType == IMAGE_DIGEST {
      if s.imageDigest != [] { return Err(SecondImageEvent); }
      return Ok(s.(imageDigest := e.content));
    } else if e.eventType == RESTART_POLICY {
      var p := RestartPolicyValue(e.content);
      if p.None? { return Err(UnknownRestartPolicy); }
      return Ok(s.(restartPolicy := p.value));
    } else if e.eventType == IMAGE_ID {
      if s.imageId != [] { return Err(SecondImageEvent); }
      return Ok(s.(imageId := e.content));
    } else if e.eventType == ENV_VAR {
      var v := ParseEnvVar(e.content);
      if v.Err? { return Err(BadEnvVar); }
      return Ok(s.(envVars := s.envVars[v.value.name := v.value.value]));
    } else if e.eventType == ARG {
      return Ok(s.(args := s.args + [e.content]));
    } else if e.eventType == OVERRIDE_ARG {
      return Ok(s.(overriddenArgs := s.overriddenArgs + [e.content]));
    } else if e.eventType == OVERRIDE_ENV {
      var v := ParseEnvVar(e.content);
      if v.Err? { return Err(BadEnvVar); }
      return Ok(s.(overriddenEnvVars := s.overriddenEnvVars[v.value.name := v.value.value]));
    } else if e.eventType == LAUNCH_SEPARATOR {
      return Ok(s);
    } else if e.eventType == MEMORY_MONITOR {
      return Ok(s.(memoryEnabled := Some(|e.content| == 1 && e.content[0] == 1)));
    } else if e.eventType == GPU_CC_MODE {
      var m := CcModeValue(e.content);
      if m.None? { return Err(UnknownCcMode); }
      return Ok(s.(ccMode := m.value));
    } else {
      return Err(UnknownEvent);
    }
  }

  /** Whether a log is accepted against a bank of a given register type. */
  predicate AcceptedBy(h: Hash, log: seq<Record>, bank: MrBank, t: MrType) {
    Replays(h, log, bank) && Acceptable(h, log, t)
  }

  method GetCosStateFromCEL(h: Hash, log: seq<Record>, bank: MrBank, registerType: MrType)
    returns (r: Result<CosState, LogError>)
    ensures r.Ok? <==> AcceptedBy(h, log, bank, registerType)
    ensures r.Ok? ==> r.value == StateOf(Events(log))
  {
    if !Replays(h, log, bank) {
      return Err(ReplayFailed);
    }
    r := GetVerifiedCosState(h, log, registerType);
  }
}
