/** Client-side sessions and keys. */
module Keys {
  import opened Basics
  import opened Hashing
  import opened PcrSelection
  import opened TpmMachine

  datatype ClientSession =
    | NullSession
    | PCRSession(handle: Handle, sel: Selection)
    | EKSession(handle: Handle)

  datatype Key = Key(handle: Handle, pub: Public, session: ClientSession)

  datatype KeyError = TpmError(code: ErrorCode) | UnknownAuthPolicy

  // ----- Sessions

  method NewPCRSession(tpm: Tpm, sel: Selection) returns (r: Result<ClientSession, ErrorCode>)
    requires tpm.Valid()
    modifies tpm`clock, tpm`banks, tpm`pcrCounter, tpm`created, tpm`nextId, tpm`sessions
    ensures tpm.Valid() && old(tpm.created) <= tpm.created && tpm.clock >= old(tpm.clock)
    ensures tpm.nextId >= old(tpm.nextId)
    ensures r.Ok? ==> (r.value.NullSession? <==> sel.pcrs == [])
    ensures r.Ok? && sel.pcrs != [] ==>
              && r.value.PCRSession? && r.value.sel == sel
              && r.value.handle !in old(tpm.sessions) && r.value.handle.SessionHandle?
              && tpm.sessions == old(tpm.sessions)[r.value.handle := FRESH_SESSION]
    ensures r.Err? || sel.pcrs == [] ==> tpm.sessions == old(tpm.sessions)
    ensures old(tpm.Quiet()) ==> tpm.Quiet() && r.Ok?
    ensures old(tpm.Quiet()) ==>
              tpm.banks == old(tpm.banks) && tpm.pcrCounter == old(tpm.pcrCounter) && tpm.created == old(tpm.created)
  {
    if sel.pcrs == [] {
      return Ok(NullSession);
    }
    var s := tpm.StartPolicySession();
    if s.Err? {
      return Err(s.error);
    }
    return Ok(PCRSession(s.value, sel));
  }

  /** The session to use for one command; for PCR sessions this adds the PCRs to the policy. */
  method Auth(tpm: Tpm, s: ClientSession) returns (r: Result<Handle, ErrorCode>)
    requires tpm.Valid()
    modifies tpm`clock, tpm`banks, tpm`pcrCounter, tpm`created, tpm`sessions
    ensures tpm.Valid() && old(tpm.created) <= tpm.created && tpm.clock >= old(tpm.clock)
    ensures tpm.sessions.Keys == old(tpm.sessions.Keys)
    ensures s.NullSession? ==> r == Ok(PasswordSession) && tpm.sessions == old(tpm.sessions)
    ensures s.PCRSession? && r.Ok? ==>
              && r.value == s.handle && s.handle in old(tpm.sessions) && Readable(tpm.banks, s.sel)
              && tpm.sessions == old(tpm.sessions)[s.handle := tpm.PolicySession(old(tpm.sessions)[s.handle], tpm.banks,
                                                                                s.sel, tpm.pcrCounter)]
    ensures s.EKSession? && r.Ok? ==>
              && r.value == s.handle && s.handle in old(tpm.sessions)
              && tpm.sessions == old(tpm.sessions)[s.handle := tpm.SecretSession(old(tpm.sessions)[s.handle])]
    ensures r.Err? ==> tpm.sessions == old(tpm.sessions)
    ensures old(tpm.Quiet()) ==>
              && tpm.Quiet() && tpm.banks == old(tpm.banks) && tpm.pcrCounter == old(tpm.pcrCounter)
              && tpm.created == old(tpm.created)
              && (s.PCRSession? ==> (r.Ok? <==> Readable(tpm.banks, s.sel) && s.handle in old(tpm.sessions)))
              && (s.EKSession? ==> (r.Ok? <==> s.handle in old(tpm.sessions)))
  {
    match s {
      case NullSession =>
        return Ok(PasswordSession);
      case PCRSession(handle, sel) =>
        var p := tpm.PolicyPCR(handle, sel);
        if p.Err? {
          return Err(p.error);
        }
        return Ok(handle);
      case EKSession(handle) =>
        var p := tpm.PolicySecret(handle);
        if p.Err? {
          return Err(p.error);
        }
        return Ok(handle);
    }
  }

  method CloseSession(tpm: Tpm, s: ClientSession)
    requires tpm.Valid()
    modifies tpm`clock, tpm`banks, tpm`pcrCounter, tpm`created, tpm`transient, tpm`sessions
    ensures tpm.Valid() && old(tpm.created) <= tpm.created && tpm.clock >= old(tpm.clock)
    ensures s.NullSession? ==> tpm.transient == old(tpm.transient) && tpm.sessions == old(tpm.sessions)
    ensures !s.NullSession? ==>
              tpm.transient == old(tpm.transient) - {s.handle} && tpm.sessions == old(tpm.sessions) - {s.handle}
    ensures old(tpm.Quiet()) ==>
              && tpm.Quiet() && tpm.banks == old(tpm.banks) && tpm.pcrCounter == old(tpm.pcrCounter)
              && tpm.created == old(tpm.created)
    ensures old(tpm.CalmFrom(tpm.clock)) ==>
              tpm.CalmFrom(tpm.clock) && tpm.banks == old(tpm.banks) && tpm.created == old(tpm.created)
  {
    if !s.NullSession? {
      tpm.FlushContext(s.handle);
    }
  }

  // ----- Keys

  /** Authorization policy of endorsement keys: PolicySecret on the endorsement hierarchy. */
  function EkAuthPolicy(h: Hash): Bytes {
    h(SHA256, h(SHA256, Zeros(DigestSize(SHA256)) + [0x00, 0x00, 0x01, 0x51] + [0x40, 0x00, 0x00, 0x0B]))
  }

  /** A new key's session: none, or exactly one fresh session more. */
  ghost predicate OpenedFor(before: map<Handle, Session>, after: map<Handle, Session>, s: ClientSession) {
    match s
    case NullSession => after == before
    case EKSession(x) => x.SessionHandle? && x !in before && after == before[x := FRESH_SESSION]
    case PCRSession(_, _) => false
  }

  /** There is a session for keys with this authorization policy. */
  predicate Finishable(h: Hash, pub: Public) {
    pub.authPolicy == [] || pub.authPolicy == EkAuthPolicy(h)
  }

  /** Chooses the session a key needs from its authorization policy. */
  method Finish(tpm: Tpm, handle: Handle, pub: Public) returns (r: Result<Key, KeyError>)
    requires tpm.Valid()
    modifies tpm`clock, tpm`banks, tpm`pcrCounter, tpm`created, tpm`nextId, tpm`sessions
    ensures tpm.Valid() && old(tpm.created) <= tpm.created && tpm.clock >= old(tpm.clock)
    ensures tpm.nextId >= old(tpm.nextId)
    ensures r.Ok? ==> r.value.handle == handle && r.value.pub == pub
    ensures r.Ok? ==>
              && r.value.session.EKSession? == (pub.authPolicy == EkAuthPolicy(tpm.h))
              && (!r.value.session.EKSession? ==> pub.authPolicy == [])
    ensures r.Ok? ==> OpenedFor(old(tpm.sessions), tpm.sessions, r.value.session)
    ensures r.Err? ==> tpm.sessions == old(tpm.sessions)
    ensures old(tpm.Quiet()) ==>
              && tpm.Quiet() && tpm.banks == old(tpm.banks)
              && (r.Ok? <==> Finishable(tpm.h, pub))
  {
    if pub.authPolicy == EkAuthPolicy(tpm.h) {
      var s := tpm.StartPolicySession();
      if s.Err? {
        return Err(TpmError(s.error));
      }
      return Ok(Key(handle, pub, EKSession(s.value)));
    }
    if pub.authPolicy == [] {
      return Ok(Key(handle, pub, NullSession));
    }
    return Err(UnknownAuthPolicy);
  }

  /** Creates a primary key; a key that cannot be finished is flushed again. */
  method NewKey(tpm: Tpm, template: Public) returns (r: Result<Key, KeyError>)
    requires tpm.Valid()
    modifies tpm`clock, tpm`banks, tpm`pcrCounter, tpm`created, tpm`nextId, tpm`transient, tpm`sessions
    ensures tpm.Valid() && old(tpm.created) <= tpm.created && tpm.clock >= old(tpm.clock)
    ensures r.Ok? ==>
              && r.value.handle !in old(tpm.transient) && r.value.handle.Transient? && r.value.handle in tpm.transient
              && tpm.transient - {r.value.handle} == old(tpm.transient)
              && Matches(r.value.pub, template) && tpm.transient[r.value.handle].pub == r.value.pub
    ensures r.Ok? ==> OpenedFor(old(tpm.sessions), tpm.sessions, r.value.session)
    ensures r.Ok? && template.authPolicy == [] ==> r.value.session.NullSession?
    ensures r.Err? ==> tpm.transient == old(tpm.transient) && tpm.sessions == old(tpm.sessions)
    ensures old(tpm.Quiet()) ==>
              && tpm.Quiet() && tpm.banks == old(tpm.banks)
              && (r.Ok? <==> Finishable(tpm.h, template))
  {
    var c := tpm.CreatePrimary(template);
    if c.Err? {
      return Err(TpmError(c.error));
    }
    r := Finish(tpm, c.value.0, c.value.1);
    assert tpm.transient - {c.value.0} == old(tpm.transient);
    if r.Err? {
      tpm.FlushContext(c.value.0);
    }
  }

  /** Creates a key and makes it persistent; the transient copy is flushed on every path. */
  method FillSlot(tpm: Tpm, template: Public, slot: Handle) returns (r: Result<Key, KeyError>)
    requires tpm.Valid() && slot.Persistent?
    modifies tpm
    ensures tpm.Valid() && old(tpm.created) <= tpm.created && tpm.clock >= old(tpm.clock)
    ensures tpm.transient == old(tpm.transient)
    ensures template.authPolicy == [] ==> tpm.sessions == old(tpm.sessions)
    ensures template.authPolicy == [] && r.Ok? ==> r.value.session.NullSession?
    ensures r.Ok? ==> OpenedFor(old(tpm.sessions), tpm.sessions, r.value.session)
    ensures r.Err? ==> exists s :: OpenedFor(old(tpm.sessions), tpm.sessions, s)
    ensures r.Ok? ==>
              && r.value.handle == slot && Matches(r.value.pub, template)
              && slot in tpm.persistent && tpm.persistent[slot].pub == r.value.pub
    ensures forall x | x in old(tpm.persistent) && x != slot ::
              x in tpm.persistent && tpm.persistent[x] == old(tpm.persistent)[x]
    ensures old(tpm.Quiet()) ==>
              && tpm.Quiet() && tpm.banks == old(tpm.banks)
              && (r.Ok? <==> Finishable(tpm.h, template) && slot !in old(tpm.persistent))
  {
    var k := NewKey(tpm, template);
    if k.Err? {
      assert OpenedFor(old(tpm.sessions), tpm.sessions, NullSession);
      return k;
    }
    ghost var s := k.value.session;
    var e := tpm.EvictControl(k.value.handle, slot);
    if e.Err? {
      r := Err(TpmError(e.error));
    } else {
      r := Ok(k.value.(handle := slot));
    }
    tpm.FlushContext(k.value.handle);
    assert OpenedFor(old(tpm.sessions), tpm.sessions, s);
  }

  /** The key in a persistent slot, if it has the right template; any other key is evicted. */
  method LookUp(tpm: Tpm, template: Public, slot: Handle) returns (r: Result<Option<Public>, KeyError>)
    requires tpm.Valid() && slot.Persistent?
    modifies tpm`clock, tpm`banks, tpm`pcrCounter, tpm`created, tpm`persistent
    ensures tpm.Valid() && old(tpm.created) <= tpm.created && tpm.clock >= old(tpm.clock)
    ensures r.Ok? && r.value.Some? ==>
              && tpm.persistent == old(tpm.persistent) && slot in tpm.persistent
              && tpm.persistent[slot].pub == r.value.value && Matches(r.value.value, template)
    ensures tpm.persistent == old(tpm.persistent) || tpm.persistent == old(tpm.persistent) - {slot}
    ensures r.Err? <==>
            && slot in old(tpm.persistent) && !Matches(old(tpm.persistent)[slot].pub, template)
            && tpm.env(tpm.NextTime(old(tpm.clock)) - 1).fault.None?
            && tpm.env(tpm.NextTime(tpm.NextTime(old(tpm.clock))) - 1).fault.Some?
    ensures old(tpm.Quiet()) ==>
              && tpm.Quiet() && tpm.banks == old(tpm.banks) && r.Ok?
              && (r.value.Some? <==> slot in old(tpm.persistent) && Matches(old(tpm.persistent)[slot].pub, template))
              && (r.value.None? ==> slot !in tpm.persistent)
  {
    var cached := tpm.ReadPublic(slot);
    if cached.Err? {
      return Ok(None);
    }
    if Matches(cached.value, template) {
      return Ok(Some(cached.value));
    }
    var e := tpm.EvictControl(slot, slot);
    if e.Err? {
      return Err(TpmError(e.error));
    }
    return Ok(None);
  }

  /** Uses the key in a persistent slot if it has the right template, and otherwise puts a new one there. */
  method NewCachedKey(tpm: Tpm, template: Public, slot: Handle) returns (r: Result<Key, KeyError>)
    requires tpm.Valid() && slot.Persistent?
    modifies tpm
    ensures tpm.Valid() && old(tpm.created) <= tpm.created && tpm.clock >= old(tpm.clock)
    ensures tpm.transient == old(tpm.transient)
    ensures template.authPolicy == [] ==> tpm.sessions == old(tpm.sessions)
    ensures template.authPolicy == [] && r.Ok? ==> r.value.session.NullSession?
    ensures r.Ok? ==> OpenedFor(old(tpm.sessions), tpm.sessions, r.value.session)
    ensures r.Err? ==> exists s :: OpenedFor(old(tpm.sessions), tpm.sessions, s)
    ensures r.Ok? ==>
              && r.value.handle == slot
              && slot in tpm.persistent && tpm.persistent[slot].pub == r.value.pub && Matches(r.value.pub, template)
    ensures forall x | x in old(tpm.persistent) && x != slot ::
              x in tpm.persistent && tpm.persistent[x] == old(tpm.persistent)[x]
    ensures old(tpm.Quiet()) ==>
              && tpm.Quiet() && tpm.banks == old(tpm.banks)
              && (r.Ok? <==> Finishable(tpm.h, template))
    ensures old(tpm.Quiet()) && slot in old(tpm.persistent) && Matches(old(tpm.persistent)[slot].pub, template) ==>
              tpm.persistent == old(tpm.persistent)
  {
    var cached := LookUp(tpm, template, slot);
    assert OpenedFor(old(tpm.sessions), tpm.sessions, NullSession);
    if cached.Err? {
      return Err(cached.error);
    }
    if cached.value.Some? {
      r := Finish(tpm, slot, cached.value.value);
      assert r.Err? ==> OpenedFor(old(tpm.sessions), tpm.sessions, NullSession);
      return;
    }
    r := FillSlot(tpm, template, slot);
  }

  method CloseKey(tpm: Tpm, k: Key)
    requires tpm.Valid()
    modifies tpm`clock, tpm`banks, tpm`pcrCounter, tpm`created, tpm`transient, tpm`sessions
    ensures tpm.Valid() && old(tpm.created) <= tpm.created && tpm.clock >= old(tpm.clock)
    ensures k.session.NullSession? ==>
              tpm.transient == old(tpm.transient) - {k.handle} && tpm.sessions == old(tpm.sessions) - {k.handle}
    ensures old(tpm.Quiet()) ==> tpm.Quiet() && tpm.banks == old(tpm.banks)
    ensures !k.session.NullSession? ==>
              && tpm.transient == old(tpm.transient) - {k.session.handle} - {k.handle}
              && tpm.sessions == old(tpm.sessions) - {k.session.handle} - {k.handle}
    ensures old(tpm.CalmFrom(tpm.clock)) ==>
              tpm.CalmFrom(tpm.clock) && tpm.banks == old(tpm.banks) && tpm.created == old(tpm.created)
  {
    CloseSession(tpm, k.session);
    tpm.FlushContext(k.handle);
  }

  const AK_ECC_TEMPLATE := Public(Ecc, true, [], 1, 0)
  const AK_ECC_SLOT := Persistent(0x8100_8F00)

  method AttestationKeyECC(tpm: Tpm) returns (r: Result<Key, KeyError>)
    requires tpm.Valid()
    modifies tpm
    ensures tpm.Valid() && old(tpm.created) <= tpm.created && tpm.clock >= old(tpm.clock)
    ensures tpm.transient == old(tpm.transient) && tpm.sessions == old(tpm.sessions)
    ensures r.Ok? ==> r.value.handle == AK_ECC_SLOT && r.value.session.NullSession? && AK_ECC_SLOT in tpm.persistent
    ensures r.Ok? ==>
              && r.value.handle == Persistent(0x8100_8F00) && r.value.pub.objectType == Ecc
              && r.value.pub == AK_ECC_TEMPLATE.(unique := r.value.pub.unique)
    ensures old(tpm.Quiet()) ==> tpm.Quiet() && tpm.banks == old(tpm.banks) && r.Ok?
  {
    r := NewCachedKey(tpm, AK_ECC_TEMPLATE, AK_ECC_SLOT);
  }
}
