/** A TPM as a state machine: PCR banks, objects, policy sessions and creation tickets.
    Before every command other actors take any number of turns, changing PCRs and creating objects, and a command may
    fail. */
module TpmMachine {
  import opened Basics
  import opened Hashing
  import opened PcrSelection

  datatype Handle = Transient(n: nat) | Persistent(n: nat) | SessionHandle(n: nat) | PasswordSession | NullHandle

  datatype ObjectType = KeyedHash | Rsa | Ecc

  /** A public area. The TPM chooses `unique`, which tells its objects apart. */
  datatype Public = Public(objectType: ObjectType, userWithAuth: bool, authPolicy: Bytes, template: nat, unique: nat)

  /** A public area identifies the object it belongs to: names are ideal. */
  datatype Object = Object(pub: Public, sensitive: Bytes)

  /** An object wrapped by its parent. */
  datatype Private = Private(parent: Public, obj: Object)

  datatype CreationData = CreationData(selection: Selection, pcrDigest: Bytes)

  /** A TPM's statement that it created `pub` with `data`; only the TPM can make valid ones. */
  datatype Ticket = Ticket(pub: Public, data: CreationData)

  /** An object's creation, the moment it happened, and the selected PCR values at that moment. */
  datatype Creation = Creation(pub: Public, selection: Selection, snapshot: map<nat, Bytes>, time: nat)

  /** A policy session; `pcrCounter` is set once the policy depends on PCRs. */
  datatype Session = Session(digest: Bytes, pcrCounter: Option<nat>)

  datatype ErrorCode =
    | Insufficient | OtherError | BadHandle | BadTicket | PolicyFail | PcrChanged | BadSelection | BadPrivate

  type Banks = map<HashAlg, seq<Bytes>>

  /** A turn of other actors: new PCR values, then objects created by them. A turn just before a command may also make
      that command fail. */
  datatype Turn = Turn(banks: Option<Banks>, created: set<Creation>, fault: Option<ErrorCode>)

  const QUIET := Turn(None, {}, None)

  const FRESH_SESSION := Session(Zeros(DigestSize(SHA256)), None)

  /** A session that authorized a command starts over. */
  function AfterUse(sessions: map<Handle, Session>, auth: Handle): (after: map<Handle, Session>)
    ensures after.Keys == sessions.Keys
    ensures forall x | x in sessions :: after[x] == if x == auth then FRESH_SESSION else sessions[x]
  {
    if auth in sessions then sessions[auth := FRESH_SESSION] else sessions
  }

  /** A certified public area and the key that certified it. */
  datatype Certificate = Certificate(pub: Public, signer: Object)

  /** A duplicate that was made for a parent key from outside the TPM. */
  datatype Duplicate = Duplicate(parent: Public, obj: Object)

  ghost predicate ValidBanks(b: Banks) {
    forall a | a in b :: a != NoAlg && |b[a]| == NUM_PCRS && Sized(b[a], DigestSize(a))
  }

  predicate Readable(b: Banks, sel: Selection) {
    sel.hash in b && |b[sel.hash]| == NUM_PCRS && forall i | 0 <= i < |sel.pcrs| :: sel.pcrs[i] < NUM_PCRS
  }

  function Values(b: Banks, sel: Selection): (m: map<nat, Bytes>)
    requires Readable(b, sel)
    ensures m.Keys == Elements(sel.pcrs)
  {
    map i | i in sel.pcrs :: b[sel.hash][i]
  }

  ghost predicate ValidCreation(c: Creation) {
    && Distinct(c.selection.pcrs)
    && c.snapshot.Keys == Elements(c.selection.pcrs)
    && InMask(c.snapshot.Keys)
    && Blocks(c.snapshot, DigestSize(c.selection.hash))
  }

  function DataOf(h: Hash, c: Creation): CreationData {
    CreationData(c.selection, DigestOf(h, SHA256, c.snapshot))
  }

  /** Some object `pub` was created with this creation data. */
  predicate Created(h: Hash, created: set<Creation>, pub: Public, data: CreationData) {
    exists c | c in created :: c.pub == pub && DataOf(h, c) == data
  }

  class Tpm {
    const h: Hash
    /** What other actors do in each of their turns, and how many extra turns they take before a command. */
    const env: nat -> Turn
    const extra: nat -> nat
    const init: Banks
    const primary: Public -> nat
    var clock: nat
    var banks: Banks
    var pcrCounter: nat
    var created: set<Creation>
    var transient: map<Handle, Object>
    var persistent: map<Handle, Object>
    var sessions: map<Handle, Session>
    var nextId: nat

    /** The PCR values at every moment of the TPM's life: the initial ones, changed only by other actors. */
    ghost function At(t: nat): Banks {
      if t == 0 then init else if env(t - 1).banks.Some? then env(t - 1).banks.value else At(t - 1)
    }

    /** How often PCRs were changed up to a moment. */
    ghost function Changes(t: nat): nat {
      if t == 0 then 0 else Changes(t - 1) + if env(t - 1).banks.Some? then 1 else 0
    }

    /** PCRs that were not changed between two moments are the same at both. */
    lemma {:induction false} SameCounter(t: nat, u: nat)
      requires t <= u
      ensures Changes(t) <= Changes(u)
      ensures Changes(t) == Changes(u) ==> At(t) == At(u)
    {
      if t < u {
        SameCounter(t, u - 1);
      }
    }

    /** A TPM at power-on, with nothing created or loaded. */
    constructor (h: Hash, env: nat -> Turn, extra: nat -> nat, init: Banks, primary: Public -> nat)
      requires ProperHash(h) && ValidBanks(init)
      requires forall n :: env(n).created == {} && (env(n).banks.Some? ==> ValidBanks(env(n).banks.value))
      ensures Valid() && clock == 0
      ensures this.h == h && this.env == env && this.extra == extra && this.init == init
    {
      this.h, this.env, this.extra, this.init, this.primary := h, env, extra, init, primary;
      clock, banks, pcrCounter, created := 0, init, 0, {};
      transient, persistent, sessions, nextId := map[], map[], map[], 0;
    }

    /** When a command that is issued at time `t` takes effect. */
    function NextTime(t: nat): nat {
      t + extra(t) + 1
    }

    /** A creation recorded the selected PCR values of its own moment. */
    ghost predicate Taken(c: Creation) {
      c.selection.pcrs == [] || (Readable(At(c.time), c.selection) && c.snapshot == Values(At(c.time), c.selection))
    }

    ghost predicate Valid()
      reads this
    {
      && ProperHash(h)
      && banks == At(clock) && pcrCounter == Changes(clock)
      && ValidBanks(init) && ValidBanks(banks)
      && (forall c | c in created :: ValidCreation(c) && c.time <= clock && Taken(c))
      && (forall n: nat :: env(n).banks.Some? ==> ValidBanks(env(n).banks.value))
      && (forall n: nat :: forall c | c in env(n).created :: ValidCreation(c) && c.time == n + 1 && Taken(c))
      && (forall x | x in transient :: x.Transient? && x.n < nextId)
      && (forall x | x in sessions :: x.SessionHandle? && x.n < nextId)
    }

    /** From now on nobody interferes and no command fails. */
    ghost predicate Quiet()
      reads this`clock
    {
      QuietFrom(clock)
    }

    /** From time `u` on nobody interferes and no command fails. */
    ghost predicate QuietFrom(u: nat) {
      forall n | n >= u :: env(n) == QUIET
    }

    /** From time `u` on nobody interferes; commands may still fail. */
    ghost predicate CalmFrom(u: nat) {
      forall n | n >= u :: env(n).banks.None? && env(n).created == {}
    }

    /** The only trouble from time `u` on: the command issued then is refused for want of a signing key. */
    ghost predicate InsufficientAt(u: nat) {
      && (forall n | n >= u && n != NextTime(u) - 1 :: env(n) == QUIET)
      && env(NextTime(u) - 1) == QUIET.(fault := Some(Insufficient))
    }

    lemma {:induction false} CalmAt(u: nat, t: nat)
      requires CalmFrom(u) && u <= t
      ensures At(t) == At(u)
    {
      if u < t {
        CalmAt(u, t - 1);
      }
    }

    lemma {:induction false} QuietAt(u: nat, t: nat)
      requires QuietFrom(u) && u <= t
      ensures At(t) == At(u)
    {
      if u < t {
        QuietAt(u, t - 1);
      }
    }

    lemma {:induction false} AtValid(t: nat)
      requires ValidBanks(init) && forall n: nat :: env(n).banks.Some? ==> ValidBanks(env(n).banks.value)
      ensures ValidBanks(At(t))
    {
      if t > 0 {
        AtValid(t - 1);
      }
    }

    /** One turn of other actors. */
    method OthersTurn()
      requires Valid()
      modifies this`clock, this`banks, this`pcrCounter, this`created
      ensures Valid()
      ensures created == old(created) + env(old(clock)).created && clock == old(clock) + 1
      ensures pcrCounter == old(pcrCounter) + if env(old(clock)).banks.Some? then 1 else 0
      ensures old(CalmFrom(clock)) ==>
                && CalmFrom(clock) && banks == old(banks) && pcrCounter == old(pcrCounter) && created == old(created)
      ensures old(Quiet()) ==>
                Quiet() && banks == old(banks) && pcrCounter == old(pcrCounter) && created == old(created)
    {
      var turn := env(clock);
      clock := clock + 1;
      if turn.banks.Some? {
        banks := turn.banks.value;
        pcrCounter := pcrCounter + 1;
      }
      created := created + turn.created;
    }

    /** Any number of turns of other actors. */
    method Wait(n: nat)
      requires Valid()
      modifies this`clock, this`banks, this`pcrCounter, this`created
      ensures Valid()
      ensures old(created) <= created && clock == old(clock) + n
      ensures old(CalmFrom(clock)) ==>
                && CalmFrom(clock) && banks == old(banks) && pcrCounter == old(pcrCounter) && created == old(created)
      ensures old(Quiet()) ==>
                Quiet() && banks == old(banks) && pcrCounter == old(pcrCounter) && created == old(created)
    {
      for i := 0 to n
        invariant Valid() && old(created) <= created && clock == old(clock) + i
        invariant old(CalmFrom(clock)) ==>
                    && CalmFrom(clock) && banks == old(banks) && pcrCounter == old(pcrCounter)
                    && created == old(created)
        invariant old(Quiet()) ==>
                    Quiet() && banks == old(banks) && pcrCounter == old(pcrCounter) && created == old(created)
      {
        OthersTurn();
      }
    }

    /** What precedes a command: at least one turn of other actors, the last of which decides whether it fails. */
    method Begin() returns (fault: Option<ErrorCode>)
      requires Valid()
      modifies this`clock, this`banks, this`pcrCounter, this`created
      ensures Valid()
      ensures clock == NextTime(old(clock)) && fault == env(clock - 1).fault
      ensures old(CalmFrom(clock)) ==>
                && CalmFrom(clock) && banks == old(banks) && pcrCounter == old(pcrCounter) && created == old(created)
      ensures old(created) <= created
      ensures old(Quiet()) ==>
                && Quiet() && fault.None? && banks == old(banks) && pcrCounter == old(pcrCounter)
                && created == old(created)
    {
      Wait(extra(clock));
      fault := env(clock).fault;
      OthersTurn();
    }

    /** TPM2_PCR_Read. */
    method PcrRead(sel: Selection) returns (r: Result<map<nat, Bytes>, ErrorCode>)
      requires Valid()
      modifies this`clock, this`banks, this`pcrCounter, this`created
      ensures Valid()
      ensures old(created) <= created && clock == NextTime(old(clock))
      ensures env(clock - 1).fault.Some? ==> r == Err(env(clock - 1).fault.value)
      ensures old(CalmFrom(clock)) ==>
                && CalmFrom(clock) && banks == old(banks) && pcrCounter == old(pcrCounter) && created == old(created)
      ensures r.Ok? <==> env(clock - 1).fault.None? && Readable(banks, sel)
      ensures r.Ok? ==> r.value == Values(banks, sel)
      ensures old(Quiet()) ==>
                Quiet() && banks == old(banks) && pcrCounter == old(pcrCounter) && created == old(created)
      ensures old(Quiet()) ==> (r.Ok? <==> Readable(banks, sel))
    {
      var fault := Begin();
      if fault.Some? {
        return Err(fault.value);
      }
      if !Readable(banks, sel) {
        return Err(BadSelection);
      }
      return Ok(Values(banks, sel));
    }

    /** Gives an object a new transient handle. */
    method AddObject(obj: Object) returns (x: Handle)
      requires Valid()
      modifies this`nextId, this`transient
      ensures Valid() && nextId > old(nextId)
      ensures x.Transient? && x !in old(transient) && transient == old(transient)[x := obj]
    {
      x := Transient(nextId);
      nextId := nextId + 1;
      transient := transient[x := obj];
    }

    method AddCreation(c: Creation)
      requires Valid() && ValidCreation(c) && c.time <= clock && Taken(c)
      modifies this`created
      ensures Valid() && created == old(created) + {c}
    {
      created := created + {c};
    }

    /** TPM2_Create of a sealed-data object; the creation data certifies the selected PCRs. */
    method CreateSealed(parent: Public, sel: Selection, userWithAuth: bool, authPolicy: Bytes, sensitive: Bytes)
      returns (r: Result<(Private, Public, CreationData, Ticket), ErrorCode>, ghost c: Creation)
      requires Valid() && Distinct(sel.pcrs)
      modifies this`clock, this`banks, this`pcrCounter, this`created, this`nextId
      ensures Valid()
      ensures nextId >= old(nextId) && (r.Ok? ==> nextId > old(nextId) == r.value.1.unique)
      ensures old(created) <= created && clock > old(clock)
      ensures env(clock - 1).fault.Some? ==> r == Err(env(clock - 1).fault.value)
      ensures r.Ok? ==>
                && Readable(banks, sel) && c == Creation(r.value.1, sel, Values(banks, sel), clock) && c in created
                && r.value
                   == (Private(parent, Object(c.pub, sensitive)), c.pub, DataOf(h, c), Ticket(c.pub, DataOf(h, c)))
                && c.pub.objectType == KeyedHash && c.pub.userWithAuth == userWithAuth && c.pub.authPolicy == authPolicy
      ensures old(Quiet()) ==> Quiet() && banks == old(banks) && pcrCounter == old(pcrCounter)
      ensures old(Quiet()) ==> (r.Ok? <==> Readable(banks, sel))
    {
      c := Creation(Public(KeyedHash, userWithAuth, authPolicy, 0, 0), sel, map[], 0);
      var fault := Begin();
      if fault.Some? {
        r := Err(fault.value);
        return;
      }
      if !Readable(banks, sel) {
        r := Err(BadSelection);
        return;
      }
      var pub := Public(KeyedHash, userWithAuth, authPolicy, 0, nextId);
      nextId := nextId + 1;
      var creation := Creation(pub, sel, Values(banks, sel), clock);
      assert ValidCreation(creation) && Taken(creation) by {
        ValuesAreBlocks(banks, sel);
      }
      AddCreation(creation);
      c := creation;
      r := Ok((Private(parent, Object(pub, sensitive)), pub, DataOf(h, creation), Ticket(pub, DataOf(h, creation))));
    }

    /** TPM2_Load. */
    method Load(parent: Public, pub: Public, priv: Private) returns (r: Result<Handle, ErrorCode>)
      requires Valid()
      modifies this`clock, this`banks, this`pcrCounter, this`created, this`nextId, this`transient
      ensures Valid()
      ensures nextId >= old(nextId)
      ensures old(created) <= created && clock == NextTime(old(clock))
      ensures env(clock - 1).fault.Some? ==> r == Err(env(clock - 1).fault.value)
      ensures old(CalmFrom(clock)) ==>
                && CalmFrom(clock) && banks == old(banks) && pcrCounter == old(pcrCounter) && created == old(created)
      ensures r.Ok? ==>
                r.value !in old(transient) && r.value.Transient? && transient == old(transient)[r.value := priv.obj]
                        && priv.obj.pub == pub
      ensures r.Err? ==> transient == old(transient)
      ensures old(Quiet()) ==>
                Quiet() && banks == old(banks) && pcrCounter == old(pcrCounter) && created == old(created)
      ensures r.Ok? <==> env(clock - 1).fault.None? && priv.parent == parent && priv.obj.pub == pub
    {
      var fault := Begin();
      if fault.Some? {
        return Err(fault.value);
      }
      if priv.parent != parent || priv.obj.pub != pub {
        return Err(BadPrivate);
      }
      var x := AddObject(priv.obj);
      return Ok(x);
    }

    /** The primary key for a template; the same template always gives the same key. */
    function PrimaryKey(template: Public): (pub: Public)
      ensures Matches(pub, template)
    {
      template.(unique := primary(template))
    }

    /** TPM2_CreatePrimary with an empty creation PCR selection. */
    method CreatePrimary(template: Public) returns (r: Result<(Handle, Public), ErrorCode>)
      requires Valid()
      modifies this`clock, this`banks, this`pcrCounter, this`created, this`nextId, this`transient
      ensures Valid()
      ensures nextId >= old(nextId)
      ensures old(created) <= created && clock > old(clock)
      ensures env(clock - 1).fault.Some? ==> r == Err(env(clock - 1).fault.value)
      ensures r.Ok? ==> r.value.0 !in old(transient) && r.value.0.Transient? && r.value.0 in transient
                        && transient == old(transient)[r.value.0 := transient[r.value.0]]
                        && r.value.1 == transient[r.value.0].pub == PrimaryKey(template)
      ensures r.Err? ==> transient == old(transient)
      ensures r.Ok? ==> Creation(r.value.1, Selection(NoAlg, []), map[], clock) in created
      ensures old(Quiet()) ==> Quiet() && banks == old(banks) && r.Ok?
    {
      var fault := Begin();
      if fault.Some? {
        return Err(fault.value);
      }
      var pub := PrimaryKey(template);
      var x := AddObject(Object(pub, []));
      AddCreation(Creation(pub, Selection(NoAlg, []), map[], clock));
      return Ok((x, pub));
    }

    /** TPM2_ReadPublic. */
    method ReadPublic(x: Handle) returns (r: Result<Public, ErrorCode>)
      requires Valid()
      modifies this`clock, this`banks, this`pcrCounter, this`created
      ensures Valid()
      ensures old(created) <= created && clock == NextTime(old(clock))
      ensures env(clock - 1).fault.Some? ==> r == Err(env(clock - 1).fault.value)
      ensures r.Ok? ==>
                (x in transient && r.value == transient[x].pub) || (x in persistent && r.value == persistent[x].pub)
      ensures old(Quiet()) ==> Quiet() && banks == old(banks) && created == old(created)
      ensures r.Ok? <==> env(clock - 1).fault.None? && (x in transient || x in persistent)
    {
      var fault := Begin();
      if fault.Some? {
        return Err(fault.value);
      }
      if x in transient {
        return Ok(transient[x].pub);
      }
      if x in persistent {
        return Ok(persistent[x].pub);
      }
      return Err(BadHandle);
    }

    /** TPM2_EvictControl: removes a persistent object, or makes a transient one persistent. */
    method EvictControl(obj: Handle, slot: Handle) returns (r: Result<(), ErrorCode>)
      requires Valid()
      modifies this`clock, this`banks, this`pcrCounter, this`created, this`persistent
      ensures Valid()
      ensures old(created) <= created && clock == NextTime(old(clock))
      ensures env(clock - 1).fault.Some? ==> r == Err(env(clock - 1).fault.value)
      ensures r.Err? ==> persistent == old(persistent)
      ensures r.Ok? && obj.Transient? ==> obj in transient && persistent == old(persistent)[slot := transient[obj]]
      ensures r.Ok? && obj.Persistent? ==> persistent == old(persistent) - {obj}
      ensures old(Quiet()) ==> Quiet() && banks == old(banks) && created == old(created)
      ensures env(clock - 1).fault.None? ==>
                (r.Ok? <==> || (obj.Persistent? && obj in old(persistent))
                            || (obj.Transient? && obj in transient && slot !in old(persistent)))
    {
      var fault := Begin();
      if fault.Some? {
        return Err(fault.value);
      }
      if obj.Persistent? && obj in persistent {
        persistent := persistent - {obj};
        return Ok(());
      }
      if obj.Transient? && obj in transient && slot !in persistent {
        persistent := persistent[slot := transient[obj]];
        return Ok(());
      }
      return Err(BadHandle);
    }

    /** TPM2_CertifyCreation (section 18.3 of TPM 2.0 Library Part 3): checks a creation ticket. */
    method CertifyCreation(obj: Handle, signer: Handle, data: CreationData, ticket: Ticket)
       returns (r: Result<(), ErrorCode>)
      requires Valid()
      modifies this`clock, this`banks, this`pcrCounter, this`created
      ensures Valid()
      ensures old(created) <= created && clock == NextTime(old(clock))
      ensures old(CalmFrom(clock)) ==>
                && CalmFrom(clock) && banks == old(banks) && pcrCounter == old(pcrCounter) && created == old(created)
      ensures r.Ok? ==> obj in transient && ticket == Ticket(transient[obj].pub, data)
      ensures r.Ok? ==> Created(h, created, transient[obj].pub, data)
      ensures old(Quiet()) ==> Quiet() && banks == old(banks) && created == old(created)
      ensures env(clock - 1).fault.Some? ==> r == Err(env(clock - 1).fault.value)
      ensures old(Quiet()) && (signer == NullHandle || signer in transient || signer in persistent) ==>
                (r.Ok? <==> && obj in transient && ticket == Ticket(transient[obj].pub, data)
                            && Created(h, created, ticket.pub, data))
      ensures old(Quiet()) && r.Err? ==> r.error != Insufficient
    {
      var fault := Begin();
      if fault.Some? {
        return Err(fault.value);
      }
      if obj !in transient || (signer != NullHandle && signer !in transient && signer !in persistent) {
        return Err(BadHandle);
      }
      if ticket != Ticket(transient[obj].pub, data) || !Created(h, created, ticket.pub, data) {
        return Err(BadTicket);
      }
      return Ok(());
    }

    /** TPM2_StartAuthSession of a policy session. */
    method StartPolicySession() returns (r: Result<Handle, ErrorCode>)
      requires Valid()
      modifies this`clock, this`banks, this`pcrCounter, this`created, this`nextId, this`sessions
      ensures Valid()
      ensures nextId >= old(nextId)
      ensures old(created) <= created && clock > old(clock)
      ensures env(clock - 1).fault.Some? ==> r == Err(env(clock - 1).fault.value)
      ensures r.Ok? ==> r.value !in old(sessions) && r.value.SessionHandle?
                        && sessions == old(sessions)[r.value := FRESH_SESSION]
      ensures r.Err? ==> sessions == old(sessions)
      ensures old(Quiet()) ==>
                Quiet() && banks == old(banks) && pcrCounter == old(pcrCounter) && created == old(created)
      ensures old(Quiet()) ==> r.Ok?
    {
      var fault := Begin();
      if fault.Some? {
        return Err(fault.value);
      }
      var x := SessionHandle(nextId);
      nextId := nextId + 1;
      sessions := sessions[x := FRESH_SESSION];
      return Ok(x);
    }

    /** TPM2_PolicyPCR with an empty digest parameter: the current PCR values enter the session's policy. */
    method PolicyPCR(x: Handle, sel: Selection) returns (r: Result<(), ErrorCode>)
      requires Valid()
      modifies this`clock, this`banks, this`pcrCounter, this`created, this`sessions
      ensures Valid()
      ensures old(created) <= created && clock > old(clock)
      ensures env(clock - 1).fault.Some? ==> r == Err(env(clock - 1).fault.value)
      ensures sessions.Keys == old(sessions.Keys)
      ensures r.Err? ==> sessions == old(sessions)
      ensures r.Ok? ==> Readable(banks, sel) && x in old(sessions)
                        && sessions == old(sessions)[x := PolicySession(old(sessions)[x], banks, sel, pcrCounter)]
      ensures old(Quiet()) ==>
                Quiet() && banks == old(banks) && pcrCounter == old(pcrCounter) && created == old(created)
      ensures old(Quiet()) ==> (r.Ok? <==> Readable(banks, sel) && x in old(sessions))
    {
      var fault := Begin();
      if fault.Some? {
        return Err(fault.value);
      }
      if x !in sessions {
        return Err(BadHandle);
      }
      if !Readable(banks, sel) {
        return Err(BadSelection);
      }
      var s := PolicySession(sessions[x], banks, sel, pcrCounter);
      SetSession(x, s);
      return Ok(());
    }

    method SetSession(x: Handle, s: Session)
      requires Valid() && x in sessions
      modifies this`sessions
      ensures Valid()
      ensures sessions == old(sessions)[x := s] && sessions.Keys == old(sessions.Keys)
    {
      sessions := sessions[x := s];
    }

    function PolicySession(s: Session, b: Banks, sel: Selection, counter: nat): Session
      requires Readable(b, sel)
    {
      Session(PolicyPcr(h, s.digest, sel.hash, Elements(sel.pcrs), DigestOf(h, SHA256, Values(b, sel))), Some(counter))
    }

    /** TPM2_PolicySecret on the endorsement hierarchy. */
    method PolicySecret(x: Handle) returns (r: Result<(), ErrorCode>)
      requires Valid()
      modifies this`clock, this`banks, this`pcrCounter, this`created, this`sessions
      ensures Valid()
      ensures old(created) <= created && clock > old(clock)
      ensures env(clock - 1).fault.Some? ==> r == Err(env(clock - 1).fault.value)
      ensures sessions.Keys == old(sessions.Keys)
      ensures r.Err? ==> sessions == old(sessions)
      ensures r.Ok? ==> x in old(sessions) && sessions == old(sessions)[x := SecretSession(old(sessions)[x])]
      ensures old(Quiet()) ==>
                Quiet() && banks == old(banks) && pcrCounter == old(pcrCounter) && created == old(created)
      ensures old(Quiet()) ==> (r.Ok? <==> x in old(sessions))
    {
      var fault := Begin();
      if fault.Some? {
        return Err(fault.value);
      }
      if x !in sessions {
        return Err(BadHandle);
      }
      SetSession(x, SecretSession(sessions[x]));
      return Ok(());
    }

    function SecretSession(s: Session): Session {
      s.(digest := h(SHA256, h(SHA256, s.digest + [0x00, 0x00, 0x01, 0x51] + [0x40, 0x00, 0x00, 0x0B])))
    }

    /** TPM2_Unseal, authorized by the empty password or by a policy session. */
    method UnsealObject(auth: Handle, obj: Handle) returns (r: Result<Bytes, ErrorCode>)
      requires Valid()
      modifies this`clock, this`banks, this`pcrCounter, this`created, this`sessions
      ensures Valid()
      ensures old(created) <= created && clock > old(clock)
      ensures env(clock - 1).fault.Some? ==> r == Err(env(clock - 1).fault.value)
      ensures r.Ok? ==>
                obj in transient && r.value == transient[obj].sensitive && sessions == AfterUse(old(sessions), auth)
      ensures r.Ok? ==> Authorizes(old(sessions), auth, transient[obj].pub, pcrCounter)
      ensures r.Err? ==> sessions == old(sessions)
      ensures old(Quiet()) ==>
                Quiet() && banks == old(banks) && pcrCounter == old(pcrCounter) && created == old(created)
      ensures old(Quiet()) ==>
                (r.Ok? <==> obj in transient && Authorizes(old(sessions), auth, transient[obj].pub, pcrCounter))
    {
      var fault := Begin();
      if fault.Some? {
        return Err(fault.value);
      }
      if obj !in transient || !Authorizes(sessions, auth, transient[obj].pub, pcrCounter) {
        return Err(PolicyFail);
      }
      sessions := AfterUse(sessions, auth);
      return Ok(transient[obj].sensitive);
    }

    /** TPM2_Import: rewraps a duplicate for use under its parent. */
    method ImportObject(auth: Handle, parent: Public, pub: Public, dup: Duplicate)
       returns (r: Result<Private, ErrorCode>)
      requires Valid()
      modifies this`clock, this`banks, this`pcrCounter, this`created, this`sessions
      ensures Valid()
      ensures old(created) <= created && clock > old(clock)
      ensures env(clock - 1).fault.Some? ==> r == Err(env(clock - 1).fault.value)
      ensures r.Ok? ==> Authorizes(old(sessions), auth, parent, pcrCounter) && sessions == AfterUse(old(sessions), auth)
      ensures r.Ok? ==> dup == Duplicate(parent, dup.obj) && dup.obj.pub == pub && r.value == Private(parent, dup.obj)
      ensures r.Err? ==> sessions == old(sessions)
      ensures old(Quiet()) ==>
                Quiet() && banks == old(banks) && pcrCounter == old(pcrCounter) && created == old(created)
      ensures old(Quiet()) ==>
                (r.Ok? <==> && Authorizes(old(sessions), auth, parent, pcrCounter)
                            && dup.parent == parent && dup.obj.pub == pub)
    {
      var fault := Begin();
      if fault.Some? {
        return Err(fault.value);
      }
      if !Authorizes(sessions, auth, parent, pcrCounter) {
        return Err(PolicyFail);
      }
      if dup.parent != parent || dup.obj.pub != pub {
        return Err(BadPrivate);
      }
      sessions := AfterUse(sessions, auth);
      return Ok(Private(parent, dup.obj));
    }

    /** TPM2_Load under a parent that is authorized by `auth`. */
    method LoadUsingAuth(auth: Handle, parent: Public, pub: Public, priv: Private)
       returns (r: Result<Handle, ErrorCode>)
      requires Valid()
      modifies this`clock, this`banks, this`pcrCounter, this`created, this`nextId, this`transient, this`sessions
      ensures Valid()
      ensures old(created) <= created && clock > old(clock) && nextId >= old(nextId)
      ensures env(clock - 1).fault.Some? ==> r == Err(env(clock - 1).fault.value)
      ensures r.Ok? ==>
                r.value !in old(transient) && r.value.Transient? && transient == old(transient)[r.value := priv.obj]
                        && priv.obj.pub == pub
      ensures r.Ok? ==> Authorizes(old(sessions), auth, parent, pcrCounter) && sessions == AfterUse(old(sessions), auth)
      ensures r.Err? ==> transient == old(transient) && sessions == old(sessions)
      ensures old(Quiet()) ==>
                Quiet() && banks == old(banks) && pcrCounter == old(pcrCounter) && created == old(created)
      ensures old(Quiet()) ==>
                (r.Ok? <==> && Authorizes(old(sessions), auth, parent, pcrCounter)
                            && priv.parent == parent && priv.obj.pub == pub)
    {
      var fault := Begin();
      if fault.Some? {
        return Err(fault.value);
      }
      if !Authorizes(sessions, auth, parent, pcrCounter) {
        return Err(PolicyFail);
      }
      if priv.parent != parent || priv.obj.pub != pub {
        return Err(BadPrivate);
      }
      var x := AddObject(priv.obj);
      sessions := AfterUse(sessions, auth);
      return Ok(x);
    }

    /** TPM2_Certify: a statement about a loaded object, signed by a loaded key. */
    method CertifyObject(obj: Handle, signer: Handle) returns (r: Result<Certificate, ErrorCode>)
      requires Valid()
      modifies this`clock, this`banks, this`pcrCounter, this`created
      ensures Valid()
      ensures old(created) <= created && clock > old(clock)
      ensures env(clock - 1).fault.Some? ==> r == Err(env(clock - 1).fault.value)
      ensures r.Ok? ==>
                obj in transient && signer in transient && r.value == Certificate(transient[obj].pub, transient[signer])
      ensures old(Quiet()) ==> Quiet() && (r.Ok? <==> obj in transient && signer in transient)
    {
      var fault := Begin();
      if fault.Some? {
        return Err(fault.value);
      }
      if obj !in transient || signer !in transient {
        return Err(BadHandle);
      }
      return Ok(Certificate(transient[obj].pub, transient[signer]));
    }

    /** TPM2_FlushContext: succeeds for every live transient object or session. */
    method FlushContext(x: Handle)
      requires Valid()
      modifies this`clock, this`banks, this`pcrCounter, this`created, this`transient, this`sessions
      ensures Valid()
      ensures old(created) <= created && clock > old(clock)
      ensures transient == old(transient) - {x} && sessions == old(sessions) - {x}
      ensures !x.SessionHandle? ==> sessions == old(sessions)
      ensures !x.Transient? ==> transient == old(transient)
      ensures old(CalmFrom(clock)) ==>
                && CalmFrom(clock) && banks == old(banks) && pcrCounter == old(pcrCounter) && created == old(created)
      ensures old(Quiet()) ==>
                Quiet() && banks == old(banks) && pcrCounter == old(pcrCounter) && created == old(created)
    {
      var _ := Begin();
      transient := transient - {x};
      sessions := sessions - {x};
    }
  }

  /** Whether `auth` authorizes the use of `pub`: the empty password, or a policy session whose digest is the
      object's policy while no PCR has changed since the PCRs entered the policy. */
  predicate Authorizes(sessions: map<Handle, Session>, auth: Handle, pub: Public, pcrCounter: nat) {
    if auth == PasswordSession then pub.userWithAuth
    else
      && auth in sessions && sessions[auth].digest == pub.authPolicy
      && (sessions[auth].pcrCounter.Some? ==> sessions[auth].pcrCounter.value == pcrCounter)
  }

  /** Whether a key was made from a template: everything but the TPM's own part agrees. */
  predicate Matches(pub: Public, template: Public) {
    pub == template.(unique := pub.unique)
  }

  lemma ValuesAreBlocks(b: Banks, sel: Selection)
    requires ValidBanks(b) && Readable(b, sel)
    ensures Blocks(Values(b, sel), DigestSize(sel.hash)) && InMask(Values(b, sel).Keys)
  {
  }
}
