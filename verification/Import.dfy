/** Importing secrets and certifying attestation keys: sequences of commands that must leave no handle behind. */
module Imports {
  import opened Basics
  import opened Hashing
  import opened PcrSelection
  import opened TpmMachine
  import opened Keys
  import opened Reading
  import opened Sealing

  datatype ImportBlob = ImportBlob(publicArea: Public, dup: Duplicate, pcrs: PCRs)

  /** All sessions but the key's own are as they were, and that one is still there. */
  ghost predicate OthersKept(before: map<Handle, Session>, after: map<Handle, Session>, own: ClientSession) {
    && before.Keys == after.Keys
    && forall x | x in before && (own.NullSession? || x != own.handle) :: after[x] == before[x]
  }

  /** The key's session authorizes the use of the key as a parent. */
  ghost predicate Ready(tpm: Tpm, k: Key)
    reads tpm
  {
    match k.session
    case NullSession => k.pub.userWithAuth
    case EKSession(x) => x in tpm.sessions && tpm.sessions[x] == FRESH_SESSION && k.pub.authPolicy == EkAuthPolicy(tpm.h)
    case PCRSession(_, _) => false
  }

  /** The blob was made for this key, with this public area. */
  predicate Intact(k: Key, blob: ImportBlob) {
    blob.dup.parent == k.pub && blob.dup.obj.pub == blob.publicArea
  }

  /** Authorizes and imports. On success the key's session is fresh again. */
  method ImportStep(tpm: Tpm, k: Key, blob: ImportBlob) returns (r: Result<Private, ErrorCode>)
    requires tpm.Valid()
    modifies tpm`clock, tpm`banks, tpm`pcrCounter, tpm`created, tpm`sessions
    ensures tpm.Valid() && old(tpm.created) <= tpm.created && tpm.clock >= old(tpm.clock)
    ensures OthersKept(old(tpm.sessions), tpm.sessions, k.session)
    ensures r.Ok? ==> Intact(k, blob) && r.value == Private(k.pub, blob.dup.obj)
    ensures r.Ok? && !k.session.NullSession? ==>
              k.session.handle in tpm.sessions && tpm.sessions[k.session.handle] == FRESH_SESSION
    ensures old(tpm.Quiet()) ==> tpm.Quiet() && tpm.banks == old(tpm.banks)
    ensures old(tpm.Quiet()) && old(Ready(tpm, k)) ==> (r.Ok? <==> Intact(k, blob)) && (r.Ok? ==> Ready(tpm, k))
  {
    var auth := Auth(tpm, k.session);
    if auth.Err? {
      return Err(auth.error);
    }
    r := tpm.ImportObject(auth.value, k.pub, blob.publicArea, blob.dup);
  }

  /** Authorizes and loads. */
  method LoadStep(tpm: Tpm, k: Key, blob: ImportBlob, priv: Private) returns (r: Result<Handle, ErrorCode>)
    requires tpm.Valid()
    modifies tpm`clock, tpm`banks, tpm`pcrCounter, tpm`created, tpm`nextId, tpm`transient, tpm`sessions
    ensures tpm.Valid() && old(tpm.created) <= tpm.created && tpm.clock >= old(tpm.clock)
    ensures OthersKept(old(tpm.sessions), tpm.sessions, k.session)
    ensures r.Ok? ==>
              && r.value !in old(tpm.transient) && r.value.Transient?
              && tpm.transient == old(tpm.transient)[r.value := priv.obj]
    ensures r.Err? ==> tpm.transient == old(tpm.transient)
    ensures r.Ok? && !k.session.NullSession? ==>
              k.session.handle in tpm.sessions && tpm.sessions[k.session.handle] == FRESH_SESSION
    ensures old(tpm.Quiet()) ==> tpm.Quiet() && tpm.banks == old(tpm.banks)
    ensures old(tpm.Quiet()) && old(Ready(tpm, k)) ==>
              (r.Ok? <==> priv.parent == k.pub && priv.obj.pub == blob.publicArea)
  {
    var auth := Auth(tpm, k.session);
    if auth.Err? {
      return Err(auth.error);
    }
    r := tpm.LoadUsingAuth(auth.value, k.pub, blob.publicArea, priv);
  }

  method LoadHandle(tpm: Tpm, k: Key, blob: ImportBlob) returns (r: Result<Handle, ErrorCode>)
    requires tpm.Valid()
    modifies tpm`clock, tpm`banks, tpm`pcrCounter, tpm`created, tpm`nextId, tpm`transient, tpm`sessions
    ensures tpm.Valid() && old(tpm.created) <= tpm.created && tpm.clock >= old(tpm.clock)
    ensures OthersKept(old(tpm.sessions), tpm.sessions, k.session)
    ensures r.Ok? ==>
              && Intact(k, blob) && r.value !in old(tpm.transient) && r.value.Transient?
              && tpm.transient == old(tpm.transient)[r.value := blob.dup.obj]
    ensures r.Err? ==> tpm.transient == old(tpm.transient)
    ensures r.Ok? && !k.session.NullSession? ==>
              k.session.handle in tpm.sessions && tpm.sessions[k.session.handle] == FRESH_SESSION
    ensures old(tpm.Quiet()) ==> tpm.Quiet() && tpm.banks == old(tpm.banks)
    ensures old(tpm.Quiet()) && old(Ready(tpm, k)) ==> (r.Ok? <==> Intact(k, blob))
  {
    var priv := ImportStep(tpm, k, blob);
    if priv.Err? {
      return Err(priv.error);
    }
    r := LoadStep(tpm, k, blob, priv.value);
  }

  /** Imports a secret.
      - Transient objects are as before, and so are all sessions but the key's own, whichever commands fail.
      - After a success the key's own session is fresh, as it was before if the key was ready for use.
      - The result is the secret inside a blob made for this key, whose policy held at some moment of the call.
      - Undisturbed, a ready key imports exactly the intact blobs whose policy holds. */
  method Import(tpm: Tpm, k: Key, blob: ImportBlob)
     returns (r: Result<Bytes, SealError>, ghost sel: Selection, ghost t: nat)
    requires tpm.Valid()
    modifies tpm`clock, tpm`banks, tpm`pcrCounter, tpm`created, tpm`nextId, tpm`transient, tpm`sessions
    ensures tpm.Valid() && old(tpm.clock) <= t <= tpm.clock
    ensures tpm.transient == old(tpm.transient) && OthersKept(old(tpm.sessions), tpm.sessions, k.session)
    ensures r.Ok? && !k.session.NullSession? ==>
              k.session.handle in tpm.sessions && tpm.sessions[k.session.handle] == FRESH_SESSION
    ensures sel.hash == blob.pcrs.hash && Elements(sel.pcrs) == blob.pcrs.pcrs.Keys
    ensures r.Ok? ==>
              && Intact(k, blob) && r.value == blob.dup.obj.sensitive
              && PolicyHolds(tpm.h, tpm.At(t), blob.publicArea, sel)
    ensures old(tpm.Quiet()) && old(Ready(tpm, k)) ==>
              (r.Ok? <==> Intact(k, blob) && PolicyHolds(tpm.h, old(tpm.banks), blob.publicArea, sel))
  {
    var selection := SelectionOf(blob.pcrs);
    sel, t := selection, tpm.clock;
    var handle := LoadHandle(tpm, k, blob);
    t := tpm.clock;
    if handle.Err? {
      r := Err(Tpm(handle.error));
      return;
    }
    r, t := OpenLoaded(tpm, handle.value, selection);
    tpm.FlushContext(handle.value);
    assert tpm.transient == old(tpm.transient);
  }

  // ----- Certified attestation keys

  datatype KeyAlgo = AlgEcc | AlgRsa | OtherAlgo

  const AK_RSA_TEMPLATE := Public(Rsa, true, [], 3, 0)

  function RsaEkTemplate(h: Hash): (template: Public)
    ensures template.objectType == Rsa && !template.userWithAuth
  {
    Public(Rsa, false, EkAuthPolicy(h), 2, 0)
  }

  function AkTemplate(keyAlgo: KeyAlgo): (template: Public)
    ensures keyAlgo == AlgEcc ==> template.objectType == Ecc
    ensures keyAlgo == AlgRsa ==> template.objectType == Rsa
    ensures template.authPolicy == []
  {
    if keyAlgo == AlgEcc then AK_ECC_TEMPLATE else AK_RSA_TEMPLATE
  }

  /** Runs PolicySecret on a session opened just for one command. */
  method OpenEkSession(tpm: Tpm) returns (r: Result<Handle, ErrorCode>)
    requires tpm.Valid()
    modifies tpm`clock, tpm`banks, tpm`pcrCounter, tpm`created, tpm`nextId, tpm`transient, tpm`sessions
    ensures tpm.Valid() && tpm.transient == old(tpm.transient)
    ensures r.Err? ==> tpm.sessions == old(tpm.sessions)
    ensures r.Ok? ==> && r.value.SessionHandle? && r.value !in old(tpm.sessions)
                      && tpm.sessions == old(tpm.sessions)[r.value := Session(EkAuthPolicy(tpm.h), None)]
    ensures old(tpm.Quiet()) ==> tpm.Quiet() && r.Ok?
  {
    r := tpm.StartPolicySession();
    if r.Err? {
      return;
    }
    var x := r.value;
    var p := tpm.PolicySecret(x);
    if p.Err? {
      tpm.FlushContext(x);
      r := Err(p.error);
    }
  }

  /** Import under an endorsement key; the session lives for this command only. */
  method ImportUnderEk(tpm: Tpm, ek: Public, blob: ImportBlob) returns (r: Result<Private, ErrorCode>)
    requires tpm.Valid()
    modifies tpm`clock, tpm`banks, tpm`pcrCounter, tpm`created, tpm`nextId, tpm`transient, tpm`sessions
    ensures tpm.Valid() && tpm.transient == old(tpm.transient) && tpm.sessions == old(tpm.sessions)
    ensures r.Ok? ==>
              ek == blob.dup.parent && blob.dup.obj.pub == blob.publicArea && r.value == Private(ek, blob.dup.obj)
    ensures old(tpm.Quiet()) && ek.authPolicy == EkAuthPolicy(tpm.h) ==>
              tpm.Quiet() && (r.Ok? <==> ek == blob.dup.parent && blob.dup.obj.pub == blob.publicArea)
  {
    var x := OpenEkSession(tpm);
    if x.Err? {
      return Err(x.error);
    }
    r := tpm.ImportObject(x.value, ek, blob.publicArea, blob.dup);
    tpm.FlushContext(x.value);
  }

  /** Load under an endorsement key; the session lives for this command only. */
  method LoadUnderEk(tpm: Tpm, ek: Public, pub: Public, priv: Private) returns (r: Result<Handle, ErrorCode>)
    requires tpm.Valid()
    modifies tpm`clock, tpm`banks, tpm`pcrCounter, tpm`created, tpm`nextId, tpm`transient, tpm`sessions
    ensures tpm.Valid() && tpm.sessions == old(tpm.sessions)
    ensures r.Ok? ==>
              && r.value !in old(tpm.transient) && r.value.Transient?
              && tpm.transient == old(tpm.transient)[r.value := priv.obj]
    ensures r.Err? ==> tpm.transient == old(tpm.transient)
    ensures old(tpm.Quiet()) && ek.authPolicy == EkAuthPolicy(tpm.h) ==>
              tpm.Quiet() && (r.Ok? <==> priv.parent == ek && priv.obj.pub == pub)
  {
    var x := OpenEkSession(tpm);
    if x.Err? {
      return Err(x.error);
    }
    r := tpm.LoadUsingAuth(x.value, ek, pub, priv);
    tpm.FlushContext(x.value);
  }

  method MakeAK(tpm: Tpm, keyAlgo: KeyAlgo) returns (r: Result<(Handle, Public), ErrorCode>)
    requires tpm.Valid()
    modifies tpm`clock, tpm`banks, tpm`pcrCounter, tpm`created, tpm`nextId, tpm`transient
    ensures tpm.Valid()
    ensures r.Ok? ==>
              && keyAlgo != OtherAlgo && r.value.1 == tpm.PrimaryKey(AkTemplate(keyAlgo))
              && r.value.0 !in old(tpm.transient) && r.value.0.Transient? && r.value.0 in tpm.transient
              && tpm.transient == old(tpm.transient)[r.value.0 := tpm.transient[r.value.0]]
              && tpm.transient[r.value.0].pub == r.value.1
    ensures r.Err? ==> tpm.transient == old(tpm.transient)
    ensures old(tpm.Quiet()) ==> tpm.Quiet() && (r.Ok? <==> keyAlgo != OtherAlgo)
  {
    if keyAlgo == OtherAlgo {
      return Err(OtherError);
    }
    r := tpm.CreatePrimary(AkTemplate(keyAlgo));
  }

  /** The blob was made for this TPM's endorsement key. */
  predicate IntactForEk(tpm: Tpm, blob: ImportBlob) {
    blob.dup.parent == tpm.PrimaryKey(RsaEkTemplate(tpm.h)) && blob.dup.obj.pub == blob.publicArea
  }

  /** Creates the endorsement key, imports and loads the challenge key under it, and flushes the endorsement key
      on every path. */
  method LoadChallenge(tpm: Tpm, blob: ImportBlob) returns (r: Result<Handle, ErrorCode>)
    requires tpm.Valid()
    modifies tpm`clock, tpm`banks, tpm`pcrCounter, tpm`created, tpm`nextId, tpm`transient, tpm`sessions
    ensures tpm.Valid() && tpm.sessions == old(tpm.sessions)
    ensures r.Ok? ==>
              && IntactForEk(tpm, blob) && r.value !in old(tpm.transient) && r.value.Transient?
              && tpm.transient == old(tpm.transient)[r.value := blob.dup.obj]
    ensures r.Err? ==> tpm.transient == old(tpm.transient)
    ensures old(tpm.Quiet()) ==> tpm.Quiet() && (r.Ok? <==> IntactForEk(tpm, blob))
  {
    var ek := tpm.CreatePrimary(RsaEkTemplate(tpm.h));
    if ek.Err? {
      return Err(ek.error);
    }
    assert tpm.transient - {ek.value.0} == old(tpm.transient);
    r := ImportAndLoad(tpm, ek.value.1, blob);
    tpm.FlushContext(ek.value.0);
  }

  method ImportAndLoad(tpm: Tpm, ek: Public, blob: ImportBlob) returns (r: Result<Handle, ErrorCode>)
    requires tpm.Valid()
    modifies tpm`clock, tpm`banks, tpm`pcrCounter, tpm`created, tpm`nextId, tpm`transient, tpm`sessions
    ensures tpm.Valid() && tpm.sessions == old(tpm.sessions)
    ensures r.Ok? ==>
              && blob.dup.parent == ek && blob.dup.obj.pub == blob.publicArea && r.value !in old(tpm.transient)
              && r.value.Transient?
              && tpm.transient == old(tpm.transient)[r.value := blob.dup.obj]
    ensures r.Err? ==> tpm.transient == old(tpm.transient)
    ensures old(tpm.Quiet()) && ek.authPolicy == EkAuthPolicy(tpm.h) ==>
              tpm.Quiet() && (r.Ok? <==> blob.dup.parent == ek && blob.dup.obj.pub == blob.publicArea)
  {
    var imported := ImportUnderEk(tpm, ek, blob);
    if imported.Err? {
      return Err(imported.error);
    }
    r := LoadUnderEk(tpm, ek, blob.publicArea, imported.value);
  }

  /** Makes an attestation key, has a loaded key certify it, and flushes it again. */
  method CertifyNewAK(tpm: Tpm, signer: Handle, keyAlgo: KeyAlgo) returns (r: Result<Certificate, ErrorCode>)
    requires tpm.Valid() && signer in tpm.transient
    modifies tpm`clock, tpm`banks, tpm`pcrCounter, tpm`created, tpm`nextId, tpm`transient, tpm`sessions
    ensures tpm.Valid() && tpm.transient == old(tpm.transient) && tpm.sessions == old(tpm.sessions)
    ensures r.Ok? ==>
              keyAlgo != OtherAlgo && r.value == Certificate(tpm.PrimaryKey(AkTemplate(keyAlgo)), tpm.transient[signer])
    ensures old(tpm.Quiet()) ==> tpm.Quiet() && (r.Ok? <==> keyAlgo != OtherAlgo)
  {
    var ak := MakeAK(tpm, keyAlgo);
    if ak.Err? {
      return Err(ak.error);
    }
    r := tpm.CertifyObject(ak.value.0, signer);
    tpm.FlushContext(ak.value.0);
  }

  /** Makes an attestation key and has the imported challenge key certify it.
      - Transient objects and sessions are as before, whichever commands fail.
      - The certificate is for this TPM's attestation key, by the key inside a blob made for this TPM.
      - Undisturbed, it succeeds exactly for intact blobs and supported algorithms. */
  method CreateCertifiedAKBlob(tpm: Tpm, blob: ImportBlob, keyAlgo: KeyAlgo) returns (r: Result<Certificate, ErrorCode>)
    requires tpm.Valid()
    modifies tpm`clock, tpm`banks, tpm`pcrCounter, tpm`created, tpm`nextId, tpm`transient, tpm`sessions
    ensures tpm.Valid() && tpm.transient == old(tpm.transient) && tpm.sessions == old(tpm.sessions)
    ensures r.Ok? ==>
              && IntactForEk(tpm, blob) && keyAlgo != OtherAlgo
              && r.value == Certificate(tpm.PrimaryKey(AkTemplate(keyAlgo)), blob.dup.obj)
              && r.value.pub.objectType == (if keyAlgo == AlgEcc then Ecc else Rsa)
    ensures old(tpm.Quiet()) ==> (r.Ok? <==> IntactForEk(tpm, blob) && keyAlgo != OtherAlgo)
  {
    var loaded := LoadChallenge(tpm, blob);
    if loaded.Err? {
      return Err(loaded.error);
    }
    r := CertifyNewAK(tpm, loaded.value, keyAlgo);
    tpm.FlushContext(loaded.value);
  }
}
