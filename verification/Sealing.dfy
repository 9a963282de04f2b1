/** Sealing data to PCRs, and unsealing it again. */
module Sealing {
  import opened Basics
  import opened Hashing
  import opened PcrSelection
  import opened Alignment
  import opened TpmMachine
  import opened Keys
  import opened Reading

  datatype SealOpts = SealOpts(current: Selection, target: Option<PCRs>)

  datatype UnsealOpts = UnsealOpts(certifyCurrent: Selection, certifyExpected: Option<PCRs>)

  datatype SealedBytes = SealedBytes(
    priv: Private,
    pub: Public,
    pcrs: seq<nat>,
    hash: HashAlg,
    srk: ObjectType,
    certifiedPcrs: PCRs,
    creationData: CreationData,
    ticket: Ticket)

  const CERTIFY_HASH: HashAlg := SHA256

  const NO_PCRS := PCRs(NoAlg, map[])

  // ----- Sealing

  /** A sealed object that wraps `sensitive` under `parent` and opens under the policy for `merged`. */
  ghost predicate SealedFor(h: Hash, parent: Public, sensitive: Bytes, merged: PCRs, sb: SealedBytes) {
    && sb.priv == Private(parent, Object(sb.pub, sensitive))
    && sb.srk == parent.objectType
    && sb.hash == merged.hash
    && Elements(sb.pcrs) == merged.pcrs.Keys
    && sb.pub.userWithAuth == (merged.pcrs == map[])
    && sb.pub.authPolicy == (if merged.pcrs == map[] then [] else AuthOf(h, merged))
  }

  /** A sealed object that carries a creation's own statement about the PCRs. */
  ghost predicate CarriesCreation(h: Hash, sb: SealedBytes, c: Creation) {
    sb.pub == c.pub && sb.creationData == DataOf(h, c) && sb.ticket == Ticket(c.pub, DataOf(h, c))
  }

  /** `p` is the snapshot taken at creation, unless SHA-256 collided on the two concatenations. */
  ghost predicate IsSnapshot(h: Hash, p: PCRs, c: Creation) {
    || p == PCRs(c.selection.hash, c.snapshot)
    || Collision(h, SHA256, Concat(p.pcrs, NUM_PCRS), Concat(c.snapshot, NUM_PCRS))
  }

  /** The creation happened at time `t`. */
  ghost predicate SnapshotAt(tpm: Tpm, c: Creation, t: nat) {
    c.time == t && Readable(tpm.At(t), c.selection) && c.snapshot == Values(tpm.At(t), c.selection)
  }

  /** The certified values match the creation data that comes with them. */
  predicate SelfConsistent(h: Hash, sb: SealedBytes) {
    && SameSelection(sb.certifiedPcrs, sb.creationData.selection)
    && DigestOf(h, SHA256, sb.certifiedPcrs.pcrs) == sb.creationData.pcrDigest
  }

  /** Creates the sealed object and reads the PCRs again to certify them. */
  method SealHelper(tpm: Tpm, parent: Public, auth: Option<Bytes>, sensitive: Bytes, sel: Selection)
    returns (r: Result<SealedBytes, SealError>, ghost c: Creation, ghost t: nat)
    requires tpm.Valid() && Distinct(sel.pcrs) && sel.pcrs != []
    modifies tpm`clock, tpm`banks, tpm`pcrCounter, tpm`created, tpm`nextId
    ensures tpm.Valid() && old(tpm.created) <= tpm.created && old(tpm.clock) <= t <= tpm.clock
    ensures tpm.nextId >= old(tpm.nextId)
    ensures r.Ok? ==>
              && c in tpm.created && c.selection == sel && SnapshotAt(tpm, c, t)
              && CarriesCreation(tpm.h, r.value, c)
              && IsSnapshot(tpm.h, r.value.certifiedPcrs, c) && SelfConsistent(tpm.h, r.value)
              && Blocks(r.value.certifiedPcrs.pcrs, DigestSize(r.value.certifiedPcrs.hash))
              && r.value.priv == Private(parent, Object(c.pub, sensitive))
              && c.pub.userWithAuth == auth.None?
              && c.pub.authPolicy == (if auth.None? then [] else auth.value)
    ensures old(tpm.Quiet()) ==> tpm.Quiet() && tpm.banks == old(tpm.banks) && (r.Ok? <==> Readable(tpm.banks, sel))
    ensures old(tpm.Quiet()) && r.Ok? ==> CurrentValues(r.value.certifiedPcrs.pcrs, sel.hash, sel.pcrs, tpm.banks)
  {
    var o;
    o, c := tpm.CreateSealed(parent, sel, auth.None?, if auth.None? then [] else auth.value, sensitive);
    t := tpm.clock;
    if o.Err? {
      r := Err(Tpm(o.error));
      return;
    }
    var (priv, pub, data, ticket) := o.value;
    var certified := ReadPCRs(tpm, sel);
    if certified.Err? {
      r := Err(certified.error);
      return;
    }
    var computed := PCRDigest(tpm.h, SHA256, certified.value);
    if old(tpm.Quiet()) {
      CurrentIsValues(certified.value.pcrs, sel, tpm.banks);
    }
    if computed != data.pcrDigest {
      r := Err(PcrsModified);
      return;
    }
    DigestBindsValues(tpm.h, SHA256, certified.value.pcrs, c.snapshot, DigestSize(sel.hash));
    SameSelectionDomain(certified.value, sel);
    r := Ok(SealedBytes(priv, pub, [], NoAlg, KeyedHash, certified.value, data, ticket));
  }

  /** Seals data under the policy for PCR values that were put together before. */
  method SealMerged(tpm: Tpm, k: Key, sensitive: Bytes, pcrs: PCRs)
    returns (r: Result<SealedBytes, SealError>, ghost c: Creation, ghost t: nat)
    requires tpm.Valid() && InMask(pcrs.pcrs.Keys)
    modifies tpm`clock, tpm`banks, tpm`pcrCounter, tpm`created, tpm`nextId
    ensures tpm.Valid() && old(tpm.created) <= tpm.created && old(tpm.clock) <= t <= tpm.clock
    ensures r.Ok? ==> SealedFor(tpm.h, k.pub, sensitive, pcrs, r.value) && Certified(tpm, r.value, c, t)
    ensures old(tpm.Quiet()) ==> tpm.Quiet() && tpm.banks == old(tpm.banks) && (r.Ok? <==> CERTIFY_HASH in tpm.banks)
  {
    var auth := None;
    if pcrs.pcrs != map[] {
      var a := PCRSessionAuth(tpm.h, pcrs);
      auth := Some(a);
    }
    r, c, t := SealHelper(tpm, k.pub, auth, sensitive, FullPcrSel(CERTIFY_HASH));
    if r.Err? {
      return;
    }
    var sel := SelectionOf(pcrs);
    r := Ok(r.value.(pcrs := sel.pcrs, hash := pcrs.hash, srk := k.pub.objectType));
  }

  /** A sealed object that carries all PCR values of the moment `t` of its creation. */
  ghost predicate Certified(tpm: Tpm, sb: SealedBytes, c: Creation, t: nat)
    reads tpm
  {
    && c in tpm.created && c.selection == FullPcrSel(CERTIFY_HASH) && SnapshotAt(tpm, c, t)
    && CarriesCreation(tpm.h, sb, c)
    && IsSnapshot(tpm.h, sb.certifiedPcrs, c) && SelfConsistent(tpm.h, sb)
    && Blocks(sb.certifiedPcrs.pcrs, DigestSize(sb.certifiedPcrs.hash))
  }

  /** The values that data was sealed to: the given ones, and current ones that were each had during the call, and all
      at one moment if they are at most eight. */
  ghost predicate SealedTo(tpm: Tpm, merged: PCRs, opts: SealOpts, start: nat, t: nat) {
    && Merged(merged, opts.current, opts.target)
    && MergedFrom(tpm, merged, opts.current, opts.target, start)
    && ReadDuring(tpm, merged, Elements(opts.current.pcrs), start, t)
    && (|opts.current.pcrs| <= 8 ==> HoldsCurrent(merged, opts.current, tpm.At(tpm.NextTime(start))))
  }

  /** Seals data. However other actors interfere, success means that the certified PCRs are the snapshot
      the TPM took when it created the object. If they stop once the current values are read, it succeeds. */
  method Seal(tpm: Tpm, k: Key, sensitive: Bytes, opts: SealOpts)
    returns (r: Result<SealedBytes, SealError>, ghost merged: PCRs, ghost c: Creation, ghost t: nat)
    requires tpm.Valid() && InMask(TargetPcrs(opts.target).Keys)
    modifies tpm`clock, tpm`banks, tpm`pcrCounter, tpm`created, tpm`nextId
    ensures tpm.Valid() && old(tpm.created) <= tpm.created && old(tpm.clock) <= t <= tpm.clock
    ensures r.Ok? ==>
              && SealedTo(tpm, merged, opts, old(tpm.clock), t)
              && SealedFor(tpm.h, k.pub, sensitive, merged, r.value) && Certified(tpm, r.value, c, t)
    ensures forall u | MergesBy(tpm, opts.current, opts.target, old(tpm.clock), u) && tpm.QuietFrom(u) ::
              r.Ok? <==> CERTIFY_HASH in tpm.At(u)
    ensures old(tpm.Quiet()) ==>
              && tpm.Quiet() && tpm.banks == old(tpm.banks)
              && (r.Ok? ==> HoldsCurrent(merged, opts.current, tpm.banks))
              && (r.Ok? <==> CanSeal(tpm.banks, opts))
  {
    merged, t := NO_PCRS, tpm.clock;
    c := Creation(Public(KeyedHash, true, [], 0, 0), Selection(NoAlg, []), map[], 0);
    var pcrs := MergePCRSelAndProto(tpm, opts.current, opts.target);
    if pcrs.Err? {
      r := Err(pcrs.error);
      return;
    }
    merged := pcrs.value;
    MergedInMask(merged, opts);
    if |opts.current.pcrs| <= 8 {
      MergedTogether(tpm, merged, opts.current, opts.target, old(tpm.clock));
    }
    r, c, t := SealMerged(tpm, k, sensitive, pcrs.value);
  }

  /** Undisturbed sealing succeeds while the banks hold `b`. */
  predicate CanSeal(b: Banks, opts: SealOpts) {
    && Mergeable(opts.current, opts.target)
    && (opts.current.pcrs == [] || Readable(b, opts.current))
    && CERTIFY_HASH in b
  }

  // ----- Unsealing

  /** The bank of `p` can give a value for each of its PCRs. */
  ghost predicate Covers(b: Banks, p: PCRs) {
    p.hash in b && forall i | i in p.pcrs :: i < |b[p.hash]|
  }

  /** The values that the PCRs of `p` have in `b`. */
  ghost function ValuesFor(b: Banks, p: PCRs): map<nat, Bytes>
    requires Covers(b, p)
  {
    map i | i in p.pcrs :: b[p.hash][i]
  }

  /** Every PCR of `p` holds its value in `p`. */
  ghost predicate Held(b: Banks, p: PCRs) {
    p.pcrs == map[] || (Covers(b, p) && ValuesFor(b, p) == p.pcrs)
  }

  /** This TPM created object `pub` at one moment at which every PCR of `wanted` held the wanted value, unless SHA-256
      collided on the certified values and those of that moment. */
  ghost predicate CertifiedBy(tpm: Tpm, created: set<Creation>, now: nat, pub: Public, wanted: PCRs, certified: PCRs) {
    exists c ::
      && c in created && c.pub == pub && c.time <= now
      && (|| Held(tpm.At(c.time), wanted)
          || Collision(tpm.h, SHA256, Concat(certified.pcrs, NUM_PCRS), Concat(c.snapshot, NUM_PCRS)))
  }

  /** The certified values of the wanted PCRs start and end where full digests do. */
  ghost predicate AllAligned(certified: PCRs, wanted: PCRs) {
    forall i | i in wanted.pcrs :: Aligned(certified.pcrs, i, DigestSize(certified.hash))
  }

  /** Everything that is checked before the PCR values at sealing time are taken as certified. */
  predicate Certifiable(h: Hash, created: set<Creation>, sb: SealedBytes, wanted: PCRs) {
    && Subset(wanted, sb.certifiedPcrs)
    && sb.ticket == Ticket(sb.pub, sb.creationData) && Created(h, created, sb.pub, sb.creationData)
    && SelfConsistent(h, sb)
  }

  /** What certification is worth: values that start where they should are those of the creation. */
  lemma CertificationSound(tpm: Tpm, c: Creation, sb: SealedBytes, wanted: PCRs)
    requires ValidCreation(c) && tpm.Taken(c) && c.pub == sb.pub && DataOf(tpm.h, c) == sb.creationData
    requires Subset(wanted, sb.certifiedPcrs) && SelfConsistent(tpm.h, sb) && AllAligned(sb.certifiedPcrs, wanted)
    ensures Held(tpm.At(c.time), wanted)
            || Collision(tpm.h, SHA256, Concat(sb.certifiedPcrs.pcrs, NUM_PCRS), Concat(c.snapshot, NUM_PCRS))
  {
    if wanted.pcrs != map[] && Concat(sb.certifiedPcrs.pcrs, NUM_PCRS) == Concat(c.snapshot, NUM_PCRS) {
      forall i | i in wanted.pcrs ensures HasValue(tpm.At(c.time), wanted.hash, i, wanted.pcrs[i]) {
        CertifiedValue(tpm, c, sb, wanted, i);
      }
      assert ValuesFor(tpm.At(c.time), wanted) == wanted.pcrs;
    }
  }

  ghost predicate HasValue(b: Banks, a: HashAlg, i: nat, v: Bytes) {
    a in b && i < |b[a]| && b[a][i] == v
  }

  lemma CertifiedValue(tpm: Tpm, c: Creation, sb: SealedBytes, wanted: PCRs, i: nat)
    requires ValidCreation(c) && tpm.Taken(c) && DataOf(tpm.h, c) == sb.creationData && i in wanted.pcrs
    requires Subset(wanted, sb.certifiedPcrs) && SelfConsistent(tpm.h, sb) && AllAligned(sb.certifiedPcrs, wanted)
    requires Concat(sb.certifiedPcrs.pcrs, NUM_PCRS) == Concat(c.snapshot, NUM_PCRS)
    ensures HasValue(tpm.At(c.time), wanted.hash, i, wanted.pcrs[i])
  {
    var p := sb.certifiedPcrs;
    SameSelectionDomain(p, c.selection);
    AlignedBinds(tpm.h, SHA256, p.pcrs, c.snapshot, i, DigestSize(p.hash));
    assert i in Elements(c.selection.pcrs);
  }

  /** The condition is exact: among the value lengths that pass the checks, the aligned ones are those that always show
      the value of the creation. */
  lemma CertificationExact(h: Hash, c: Creation, p: PCRs, i: nat)
    requires ValidCreation(c) && SameSelection(p, c.selection) && i in p.pcrs && DigestSize(p.hash) > 0
    requires DigestOf(h, SHA256, p.pcrs) == DataOf(h, c).pcrDigest
    requires !Collision(h, SHA256, Concat(p.pcrs, NUM_PCRS), Concat(c.snapshot, NUM_PCRS))
    ensures Aligned(p.pcrs, i, DigestSize(p.hash)) <==> Binds(p.pcrs, i, DigestSize(p.hash))
  {
    SameSelectionDomain(p, c.selection);
    BlocksOffset(c.snapshot, DigestSize(p.hash), NUM_PCRS);
    AlignmentExact(p.pcrs, i, DigestSize(p.hash));
  }

  /** What happens without it: for every object this TPM created, a blob passes all checks of certification that gives a
      PCR the value that another one had, though the PCR itself did not have it at the creation. */
  lemma RegroupedCertified(tpm: Tpm, created: set<Creation>, c: Creation, sb: SealedBytes, lo: nat, i: nat, hi: nat,
                           m: nat)
    requires c in created && ValidCreation(c) && tpm.Taken(c) && CarriesCreation(tpm.h, sb, c)
    requires lo < i < hi && lo <= m <= hi
    requires lo in c.snapshot && i in c.snapshot && hi in c.snapshot && m in c.snapshot
    ensures var p := PCRs(c.selection.hash, Regrouped(c.snapshot, lo, i, hi, m));
            var wanted := PCRs(c.selection.hash, map[i := c.snapshot[m]]);
            && Certifiable(tpm.h, created, sb.(certifiedPcrs := p), wanted)
            && (c.snapshot[m] != c.snapshot[i] ==> !Held(tpm.At(c.time), wanted))
  {
    RegroupedShows(c.snapshot, lo, i, hi, m);
    SameSelectionDomain(PCRs(c.selection.hash, Regrouped(c.snapshot, lo, i, hi, m)), c.selection);
    assert Created(tpm.h, created, sb.pub, sb.creationData);
    OneValueHeld(tpm, c, i, c.snapshot[m]);
  }

  /** At its creation an object's PCRs held the values of the snapshot and no others. */
  lemma OneValueHeld(tpm: Tpm, c: Creation, i: nat, v: Bytes)
    requires ValidCreation(c) && tpm.Taken(c) && i in c.snapshot
    ensures Held(tpm.At(c.time), PCRs(c.selection.hash, map[i := v])) <==> c.snapshot[i] == v
  {
    var b, wanted := tpm.At(c.time), PCRs(c.selection.hash, map[i := v]);
    assert i in Elements(c.selection.pcrs);
    assert wanted.pcrs[i] == v && i in wanted.pcrs && Covers(b, wanted);
    assert ValuesFor(b, wanted) == map[i := b[wanted.hash][i]];
  }

  /** Checks the creation ticket with the cached signing key. */
  method CheckSigned(tpm: Tpm, sealed: Handle, data: CreationData, ticket: Ticket)
    returns (r: Result<(), SealError>, signer: Option<Key>)
    requires tpm.Valid() && sealed in tpm.transient
    modifies tpm
    ensures tpm.Valid() && old(tpm.created) <= tpm.created && tpm.clock >= old(tpm.clock)
    ensures tpm.transient == old(tpm.transient) && tpm.sessions == old(tpm.sessions)
    ensures signer.Some? ==> signer.value.handle == AK_ECC_SLOT && signer.value.session.NullSession?
    ensures r.Ok? ==> Created(tpm.h, tpm.created, tpm.transient[sealed].pub, data)
    ensures old(tpm.Quiet()) ==>
              && tpm.Quiet() && tpm.banks == old(tpm.banks) && signer.Some?
              && (r.Ok? <==> && ticket == Ticket(tpm.transient[sealed].pub, data)
                             && Created(tpm.h, tpm.created, ticket.pub, data))
  {
    signer := None;
    var key := AttestationKeyECC(tpm);
    if key.Err? {
      r := Err(NoFallbackKey);
      return;
    }
    signer := Some(key.value);
    var cert := tpm.CertifyCreation(sealed, key.value.handle, data, ticket);
    r := if cert.Ok? then Ok(()) else Err(Tpm(cert.error));
  }

  /** Checks the creation ticket, falling back to a cached signing key on TPMs that need one. */
  method CheckTicket(tpm: Tpm, sealed: Handle, data: CreationData, ticket: Ticket)
    returns (r: Result<(), SealError>, signer: Option<Key>)
    requires tpm.Valid() && sealed in tpm.transient
    modifies tpm
    ensures tpm.Valid() && old(tpm.created) <= tpm.created && tpm.clock >= old(tpm.clock)
    ensures tpm.transient == old(tpm.transient) && tpm.sessions == old(tpm.sessions)
    ensures signer.Some? ==> signer.value.handle.Persistent? && signer.value.session.NullSession?
    ensures r.Ok? ==> Created(tpm.h, tpm.created, tpm.transient[sealed].pub, data)
    ensures old(tpm.Quiet()) ==> tpm.created == old(tpm.created) && signer.None?
    ensures old(tpm.InsufficientAt(tpm.clock)) ==> signer.Some? && signer.value.handle == AK_ECC_SLOT
    ensures old(tpm.Quiet() || tpm.InsufficientAt(tpm.clock)) ==>
              && tpm.Quiet() && tpm.banks == old(tpm.banks)
              && (r.Ok? <==> && ticket == Ticket(tpm.transient[sealed].pub, data)
                             && Created(tpm.h, tpm.created, ticket.pub, data))
  {
    signer := None;
    var cert := tpm.CertifyCreation(sealed, NullHandle, data, ticket);
    if cert.Err? && cert.error == Insufficient {
      r, signer := CheckSigned(tpm, sealed, data, ticket);
      return;
    }
    if cert.Err? {
      r := Err(Tpm(cert.error));
      return;
    }
    r := Ok(());
  }

  /** Certifies that the object was created while the TPM had the wanted PCR values. */
  method Certify(tpm: Tpm, sealed: Handle, sb: SealedBytes, wanted: PCRs)
     returns (r: Result<(), SealError>, signer: Option<Key>)
    requires tpm.Valid() && sealed in tpm.transient && tpm.transient[sealed].pub == sb.pub
    modifies tpm
    ensures tpm.Valid() && old(tpm.created) <= tpm.created && tpm.clock >= old(tpm.clock)
    ensures tpm.transient == old(tpm.transient) && tpm.sessions == old(tpm.sessions)
    ensures signer.Some? ==> signer.value.handle.Persistent? && signer.value.session.NullSession?
    ensures r.Ok? && AllAligned(sb.certifiedPcrs, wanted) ==>
              CertifiedBy(tpm, tpm.created, tpm.clock, sb.pub, wanted, sb.certifiedPcrs)
    ensures old(tpm.Quiet()) ==> tpm.Quiet() && tpm.created == old(tpm.created) && signer.None?
    ensures old(tpm.Quiet() || tpm.InsufficientAt(tpm.clock)) ==>
              && tpm.banks == old(tpm.banks) && (r.Ok? ==> tpm.Quiet())
              && (r.Ok? <==> Certifiable(tpm.h, tpm.created, sb, wanted))
    ensures old(tpm.CalmFrom(tpm.clock) && tpm.InsufficientAt(tpm.clock)) ==> tpm.CalmFrom(tpm.clock)
  {
    signer := None;
    var subset := CheckSubset(wanted, sb.certifiedPcrs);
    if !subset {
      r := Err(NotCertified);
      return;
    }
    r, signer := CheckTicket(tpm, sealed, sb.creationData, sb.ticket);
    if r.Err? {
      return;
    }
    ghost var c :| c in tpm.created && c.pub == sb.pub && DataOf(tpm.h, c) == sb.creationData;
    var same := SamePCRSelection(sb.certifiedPcrs, sb.creationData.selection);
    if !same {
      r := Err(WrongCreationData);
      return;
    }
    var digest := PCRDigest(tpm.h, SHA256, sb.certifiedPcrs);
    if digest != sb.creationData.pcrDigest {
      r := Err(WrongCreationData);
      return;
    }
    if AllAligned(sb.certifiedPcrs, wanted) {
      CertificationSound(tpm, c, sb, wanted);
    }
  }

  /** The object was sealed under this parent. */
  predicate Loadable(parent: Public, sb: SealedBytes) {
    sb.srk == parent.objectType && sb.priv.parent == parent && sb.priv.obj.pub == sb.pub
  }

  /** Whether an intact sealed object opens while the banks hold `b`. */
  predicate Opens(h: Hash, b: Banks, parent: Public, sb: SealedBytes) {
    && Loadable(parent, sb)
    && PolicyHolds(h, b, sb.pub, Selection(sb.hash, sb.pcrs))
  }

  /** Whether a session over `sel` opens the object `pub` while the banks hold `b`. */
  predicate PolicyHolds(h: Hash, b: Banks, pub: Public, sel: Selection) {
    if sel.pcrs == [] then pub.userWithAuth
    else Readable(b, sel) && pub.authPolicy == AuthOf(h, PCRs(sel.hash, Values(b, sel)))
  }

  /** Authorizes with a fresh session and unseals: the PCRs satisfy the policy at the very moment of unsealing. */
  method UseSession(tpm: Tpm, session: ClientSession, sealed: Handle, sel: Selection)
    returns (r: Result<Bytes, SealError>, ghost t: nat)
    requires tpm.Valid() && sealed in tpm.transient
    requires if sel.pcrs == [] then session.NullSession?
             else session.PCRSession? && session.sel == sel && session.handle.SessionHandle?
                  && session.handle in tpm.sessions && tpm.sessions[session.handle] == FRESH_SESSION
    modifies tpm`clock, tpm`banks, tpm`pcrCounter, tpm`created, tpm`sessions
    ensures tpm.Valid() && old(tpm.created) <= tpm.created && old(tpm.clock) <= t <= tpm.clock
    ensures tpm.sessions.Keys == old(tpm.sessions.Keys)
    ensures session.NullSession? ==> tpm.sessions == old(tpm.sessions)
    ensures session.PCRSession? ==> tpm.sessions - {session.handle} == old(tpm.sessions) - {session.handle}
    ensures r.Ok? ==>
              && t == tpm.clock && PolicyHolds(tpm.h, tpm.At(t), tpm.transient[sealed].pub, sel)
              && r.value == tpm.transient[sealed].sensitive
    ensures old(tpm.Quiet()) ==>
              && tpm.Quiet() && tpm.banks == old(tpm.banks) && tpm.created == old(tpm.created)
              && (r.Ok? <==> PolicyHolds(tpm.h, tpm.banks, tpm.transient[sealed].pub, sel))
  {
    var auth := Auth(tpm, session);
    ghost var authorized := tpm.clock;
    t := tpm.clock;
    if auth.Err? {
      r := Err(Tpm(auth.error));
      return;
    }
    ghost var pub := tpm.transient[sealed].pub;
    assert PolicyHolds(tpm.h, tpm.banks, pub, sel) <==> Authorizes(tpm.sessions, auth.value, pub, tpm.pcrCounter) by {
      if sel.pcrs != [] {
        PolicyFromZero(tpm, tpm.banks, sel, tpm.pcrCounter);
      }
    }
    var out := tpm.UnsealObject(auth.value, sealed);
    t := tpm.clock;
    tpm.SameCounter(authorized, t);
    r := if out.Ok? then Ok(out.value) else Err(Tpm(out.error));
  }

  /** One PolicyPCR on a fresh session is the authorization computed by the client. */
  lemma PolicyFromZero(tpm: Tpm, b: Banks, sel: Selection, n: nat)
    requires Readable(b, sel)
    ensures tpm.PolicySession(FRESH_SESSION, b, sel, n) == Session(AuthOf(tpm.h, PCRs(sel.hash, Values(b, sel))), Some(n))
  {
  }

  /** Opens a loaded object with a session over its PCRs, which is closed again on every path. */
  method OpenLoaded(tpm: Tpm, sealed: Handle, sel: Selection) returns (r: Result<Bytes, SealError>, ghost t: nat)
    requires tpm.Valid() && sealed in tpm.transient
    modifies tpm`clock, tpm`banks, tpm`pcrCounter, tpm`created, tpm`nextId, tpm`transient, tpm`sessions
    ensures tpm.Valid() && old(tpm.created) <= tpm.created && old(tpm.clock) <= t <= tpm.clock
    ensures tpm.transient == old(tpm.transient) && tpm.sessions == old(tpm.sessions)
    ensures r.Ok? ==>
              && PolicyHolds(tpm.h, tpm.At(t), tpm.transient[sealed].pub, sel)
              && r.value == tpm.transient[sealed].sensitive
    ensures old(tpm.Quiet()) ==>
              && tpm.Quiet() && tpm.banks == old(tpm.banks) && tpm.created == old(tpm.created)
              && (r.Ok? <==> PolicyHolds(tpm.h, tpm.banks, tpm.transient[sealed].pub, sel))
  {
    t := tpm.clock;
    var session := NewPCRSession(tpm, sel);
    if session.Err? {
      r := Err(Tpm(session.error));
      return;
    }
    assert sel.pcrs != [] ==> tpm.sessions - {session.value.handle} == old(tpm.sessions);
    r, t := UseSession(tpm, session.value, sealed, sel);
    CloseSession(tpm, session.value);
  }

  /** The wanted PCR values can be put together while the banks hold `b`. */
  predicate CanMerge(b: Banks, opts: UnsealOpts) {
    && Mergeable(opts.certifyCurrent, opts.certifyExpected)
    && (opts.certifyCurrent.pcrs == [] || Readable(b, opts.certifyCurrent))
  }

  /** Undisturbed unsealing succeeds: the object opens, and the wanted values can be put together and are
      certifiable. */
  predicate CanUnseal(h: Hash, b: Banks, created: set<Creation>, parent: Public, sb: SealedBytes, opts: UnsealOpts,
                      wanted: PCRs) {
    && Opens(h, b, parent, sb) && CanMerge(b, opts)
    && (wanted.pcrs != map[] ==> Certifiable(h, created, sb, wanted))
  }

  /** `wanted` consists of the expected values and of the current ones in `b`. */
  ghost predicate IsWanted(wanted: PCRs, b: Banks, opts: UnsealOpts) {
    Merged(wanted, opts.certifyCurrent, opts.certifyExpected) && HoldsCurrent(wanted, opts.certifyCurrent, b)
  }

  /** Values are wanted, nobody interferes while they are put together from time `t` on, and the only failure after that
      is that the TPM refuses to certify the creation without a signing key. */
  ghost predicate NeedsSigner(tpm: Tpm, opts: UnsealOpts, t: nat) {
    var read := Chunked(tpm, opts.certifyCurrent, 0, t, map[]);
    && tpm.CalmFrom(t) && read.Some? && tpm.InsufficientAt(read.value.1)
    && (opts.certifyCurrent.pcrs != [] || TargetPcrs(opts.certifyExpected) != map[])
  }

  /** Nobody interferes from time `t` on, and no command fails, unless it is the first certification for want of a
      signing key. */
  ghost predicate Certifies(tpm: Tpm, opts: UnsealOpts, t: nat) {
    tpm.QuietFrom(t) || NeedsSigner(tpm, opts, t)
  }

  /** The same for an unsealing that starts at time `t` with loading the object. */
  ghost predicate Undisturbed(tpm: Tpm, opts: UnsealOpts, t: nat) {
    || tpm.QuietFrom(t)
    || (tpm.CalmFrom(t) && tpm.env(tpm.NextTime(t) - 1).fault.None? && NeedsSigner(tpm, opts, tpm.NextTime(t)))
  }

  /** Loads a sealed object under a key of the type it was sealed with. */
  method LoadSealed(tpm: Tpm, k: Key, sb: SealedBytes, ghost opts: UnsealOpts) returns (r: Result<Handle, SealError>)
    requires tpm.Valid()
    modifies tpm`clock, tpm`banks, tpm`pcrCounter, tpm`created, tpm`nextId, tpm`transient
    ensures tpm.Valid() && old(tpm.created) <= tpm.created && old(tpm.clock) <= tpm.clock
    ensures r.Err? ==> tpm.transient == old(tpm.transient)
    ensures r.Ok? ==>
              && r.value in tpm.transient && tpm.transient[r.value] == sb.priv.obj && sb.priv.obj.pub == sb.pub
              && tpm.transient - {r.value} == old(tpm.transient)
    ensures old(tpm.Quiet()) ==> tpm.Quiet() && tpm.created == old(tpm.created)
    ensures old(Undisturbed(tpm, opts, tpm.clock)) ==>
              && tpm.banks == old(tpm.banks) && (r.Ok? <==> Loadable(k.pub, sb))
              && (r.Ok? ==> Certifies(tpm, opts, tpm.clock))
  {
    if sb.srk != k.pub.objectType {
      return Err(WrongKeyType);
    }
    var sealed := tpm.Load(k.pub, sb.pub, sb.priv);
    return if sealed.Ok? then Ok(sealed.value) else Err(Tpm(sealed.error));
  }

  /** Unseals data, optionally certifying the PCR values at the time of sealing.
      - Certification is sound whatever other actors do, for every blob whose certified values start where they should:
        the object was created at one moment at which all wanted PCRs held the wanted values.
      - Success means that at some moment during the call the PCRs satisfied the object's policy.
      - Undisturbed, success is exactly that the object opens now and that the wanted values are certifiable.
      - Transient objects and sessions are as before, whichever commands fail. */
  method Unseal(tpm: Tpm, k: Key, sb: SealedBytes, opts: UnsealOpts)
    returns (r: Result<Bytes, SealError>, ghost wanted: PCRs, ghost t: nat)
    requires tpm.Valid()
    modifies tpm
    ensures tpm.Valid() && old(tpm.created) <= tpm.created && old(tpm.clock) <= t <= tpm.clock
    ensures tpm.transient == old(tpm.transient) && tpm.sessions == old(tpm.sessions)
    ensures r.Ok? ==>
              r.value == sb.priv.obj.sensitive && PolicyHolds(tpm.h, tpm.At(t), sb.pub, Selection(sb.hash, sb.pcrs))
    ensures r.Ok? ==>
              && Merged(wanted, opts.certifyCurrent, opts.certifyExpected)
              && ReadDuring(tpm, wanted, Elements(opts.certifyCurrent.pcrs), old(tpm.clock), t)
    ensures r.Ok? && wanted.pcrs != map[] && AllAligned(sb.certifiedPcrs, wanted) ==>
              CertifiedBy(tpm, tpm.created, tpm.clock, sb.pub, wanted, sb.certifiedPcrs)
    ensures old(tpm.Quiet()) ==> tpm.Quiet() && tpm.banks == old(tpm.banks) && tpm.created == old(tpm.created)
    ensures old(Undisturbed(tpm, opts, tpm.clock)) ==>
              (r.Ok? <==> CanUnseal(tpm.h, old(tpm.banks), tpm.created, k.pub, sb, opts, wanted))
    ensures old(Undisturbed(tpm, opts, tpm.clock)) && CanMerge(old(tpm.banks), opts) && Loadable(k.pub, sb) ==>
              IsWanted(wanted, old(tpm.banks), opts)
  {
    wanted, t := NO_PCRS, tpm.clock;
    var sealed := LoadSealed(tpm, k, sb, opts);
    if sealed.Err? {
      r := Err(sealed.error);
      return;
    }
    r, wanted, t := UnsealAndFlush(tpm, sealed.value, sb, opts);
  }

  /** Unseals a loaded object and flushes it. */
  method UnsealAndFlush(tpm: Tpm, sealed: Handle, sb: SealedBytes, opts: UnsealOpts)
    returns (r: Result<Bytes, SealError>, ghost wanted: PCRs, ghost t: nat)
    requires tpm.Valid() && sealed in tpm.transient && tpm.transient[sealed].pub == sb.pub
    modifies tpm
    ensures tpm.Valid() && old(tpm.created) <= tpm.created && old(tpm.clock) <= t <= tpm.clock
    ensures tpm.transient == old(tpm.transient) - {sealed} && tpm.sessions == old(tpm.sessions)
    ensures r.Ok? ==>
              && PolicyHolds(tpm.h, tpm.At(t), sb.pub, Selection(sb.hash, sb.pcrs))
              && r.value == old(tpm.transient)[sealed].sensitive
              && Merged(wanted, opts.certifyCurrent, opts.certifyExpected)
              && ReadDuring(tpm, wanted, Elements(opts.certifyCurrent.pcrs), old(tpm.clock), t)
    ensures r.Ok? && wanted.pcrs != map[] && AllAligned(sb.certifiedPcrs, wanted) ==>
              CertifiedBy(tpm, tpm.created, tpm.clock, sb.pub, wanted, sb.certifiedPcrs)
    ensures old(tpm.Quiet()) ==> tpm.Quiet() && tpm.banks == old(tpm.banks) && tpm.created == old(tpm.created)
    ensures old(Certifies(tpm, opts, tpm.clock)) ==>
              && tpm.CalmFrom(tpm.clock)
              && (r.Ok? <==> && PolicyHolds(tpm.h, old(tpm.banks), sb.pub, Selection(sb.hash, sb.pcrs))
                             && CanMerge(old(tpm.banks), opts)
                             && (wanted.pcrs != map[] ==> Certifiable(tpm.h, tpm.created, sb, wanted)))
    ensures old(Certifies(tpm, opts, tpm.clock)) && CanMerge(old(tpm.banks), opts) ==>
              IsWanted(wanted, old(tpm.banks), opts)
  {
    var signer;
    r, signer, wanted, t := UnsealLoaded(tpm, sealed, sb, opts);
    ghost var created, now := tpm.created, tpm.clock;
    Release(tpm, signer, sealed);
    if CertifiedBy(tpm, created, now, sb.pub, wanted, sb.certifiedPcrs) {
      CertifiedLater(tpm, created, now, sb.pub, wanted, sb.certifiedPcrs);
    }
  }

  /** The deferred clean-up of an unsealing. */
  method Release(tpm: Tpm, signer: Option<Key>, sealed: Handle)
    requires tpm.Valid() && sealed.Transient?
    requires signer.Some? ==> signer.value.handle.Persistent? && signer.value.session.NullSession?
    modifies tpm`clock, tpm`banks, tpm`pcrCounter, tpm`created, tpm`transient, tpm`sessions
    ensures tpm.Valid() && old(tpm.created) <= tpm.created && tpm.clock >= old(tpm.clock)
    ensures tpm.transient == old(tpm.transient) - {sealed} && tpm.sessions == old(tpm.sessions)
    ensures old(tpm.Quiet()) ==> tpm.Quiet() && tpm.banks == old(tpm.banks)
    ensures old(tpm.CalmFrom(tpm.clock)) ==>
              tpm.CalmFrom(tpm.clock) && tpm.banks == old(tpm.banks) && tpm.created == old(tpm.created)
  {
    if signer.Some? {
      CloseKey(tpm, signer.value);
      assert tpm.transient == old(tpm.transient) && tpm.sessions == old(tpm.sessions);
    }
    tpm.FlushContext(sealed);
  }

  lemma CertifiedLater(tpm: Tpm, before: set<Creation>, moment: nat, pub: Public, wanted: PCRs, certified: PCRs)
    requires before <= tpm.created && moment <= tpm.clock && CertifiedBy(tpm, before, moment, pub, wanted, certified)
    ensures CertifiedBy(tpm, tpm.created, tpm.clock, pub, wanted, certified)
  {
    var c :|
      && c in before && c.pub == pub && c.time <= moment
      && (|| Held(tpm.At(c.time), wanted)
          || Collision(tpm.h, SHA256, Concat(certified.pcrs, NUM_PCRS), Concat(c.snapshot, NUM_PCRS)));
    assert c in tpm.created;
  }

  /** Puts the wanted values together and certifies them, if any are wanted. */
  method CertifyWanted(tpm: Tpm, sealed: Handle, sb: SealedBytes, opts: UnsealOpts)
    returns (r: Result<(), SealError>, signer: Option<Key>, ghost wanted: PCRs)
    requires tpm.Valid() && sealed in tpm.transient && tpm.transient[sealed].pub == sb.pub
    modifies tpm
    ensures tpm.Valid() && old(tpm.created) <= tpm.created && old(tpm.clock) <= tpm.clock
    ensures tpm.transient == old(tpm.transient) && tpm.sessions == old(tpm.sessions)
    ensures signer.Some? ==> signer.value.handle.Persistent? && signer.value.session.NullSession?
    ensures r.Ok? ==>
              && Merged(wanted, opts.certifyCurrent, opts.certifyExpected)
              && ReadDuring(tpm, wanted, Elements(opts.certifyCurrent.pcrs), old(tpm.clock), tpm.clock)
    ensures r.Ok? && wanted.pcrs != map[] && AllAligned(sb.certifiedPcrs, wanted) ==>
              CertifiedBy(tpm, tpm.created, tpm.clock, sb.pub, wanted, sb.certifiedPcrs)
    ensures old(tpm.Quiet()) ==> tpm.Quiet() && tpm.created == old(tpm.created)
    ensures old(Certifies(tpm, opts, tpm.clock)) ==>
              && tpm.CalmFrom(tpm.clock) && tpm.banks == old(tpm.banks) && (r.Ok? ==> tpm.Quiet())
              && (r.Ok? <==> && CanMerge(old(tpm.banks), opts)
                             && (wanted.pcrs != map[] ==> Certifiable(tpm.h, tpm.created, sb, wanted)))
    ensures old(Certifies(tpm, opts, tpm.clock)) && CanMerge(old(tpm.banks), opts) ==>
              IsWanted(wanted, old(tpm.banks), opts)
  {
    signer := None;
    wanted := NO_PCRS;
    var pcrs := MergePCRSelAndProto(tpm, opts.certifyCurrent, opts.certifyExpected);
    if pcrs.Err? {
      r := Err(pcrs.error);
      return;
    }
    wanted := pcrs.value;
    if opts.certifyCurrent.pcrs != [] || TargetPcrs(opts.certifyExpected) != map[] {
      SomethingWanted(wanted, opts);
    }
    if pcrs.value.pcrs == map[] {
      r := Ok(());
      return;
    }
    r, signer := Certify(tpm, sealed, sb, pcrs.value);
  }

  lemma SomethingWanted(wanted: PCRs, opts: UnsealOpts)
    requires Merged(wanted, opts.certifyCurrent, opts.certifyExpected)
    requires opts.certifyCurrent.pcrs != [] || TargetPcrs(opts.certifyExpected) != map[]
    ensures wanted.pcrs != map[]
  {
    if opts.certifyCurrent.pcrs != [] {
      assert opts.certifyCurrent.pcrs[0] in wanted.pcrs.Keys;
    } else {
      var i :| i in TargetPcrs(opts.certifyExpected);
      assert i in wanted.pcrs.Keys;
    }
  }

  method UnsealLoaded(tpm: Tpm, sealed: Handle, sb: SealedBytes, opts: UnsealOpts)
    returns (r: Result<Bytes, SealError>, signer: Option<Key>, ghost wanted: PCRs, ghost t: nat)
    requires tpm.Valid() && sealed in tpm.transient && tpm.transient[sealed].pub == sb.pub
    modifies tpm
    ensures tpm.Valid() && old(tpm.created) <= tpm.created && old(tpm.clock) <= t <= tpm.clock
    ensures tpm.transient == old(tpm.transient) && tpm.sessions == old(tpm.sessions)
    ensures signer.Some? ==> signer.value.handle.Persistent? && signer.value.session.NullSession?
    ensures r.Ok? ==>
              && PolicyHolds(tpm.h, tpm.At(t), sb.pub, Selection(sb.hash, sb.pcrs))
              && r.value == tpm.transient[sealed].sensitive
    ensures r.Ok? ==>
              && Merged(wanted, opts.certifyCurrent, opts.certifyExpected)
              && ReadDuring(tpm, wanted, Elements(opts.certifyCurrent.pcrs), old(tpm.clock), t)
    ensures r.Ok? && wanted.pcrs != map[] && AllAligned(sb.certifiedPcrs, wanted) ==>
              CertifiedBy(tpm, tpm.created, tpm.clock, sb.pub, wanted, sb.certifiedPcrs)
    ensures old(tpm.Quiet()) ==> tpm.Quiet() && tpm.banks == old(tpm.banks) && tpm.created == old(tpm.created)
    ensures old(Certifies(tpm, opts, tpm.clock)) ==>
              && tpm.CalmFrom(tpm.clock)
              && (r.Ok? <==> && PolicyHolds(tpm.h, old(tpm.banks), sb.pub, Selection(sb.hash, sb.pcrs))
                             && CanMerge(old(tpm.banks), opts)
                             && (wanted.pcrs != map[] ==> Certifiable(tpm.h, tpm.created, sb, wanted)))
    ensures old(Certifies(tpm, opts, tpm.clock)) && CanMerge(old(tpm.banks), opts) ==>
              IsWanted(wanted, old(tpm.banks), opts)
  {
    t := tpm.clock;
    var certified;
    certified, signer, wanted := CertifyWanted(tpm, sealed, sb, opts);
    if certified.Err? {
      r := Err(certified.error);
      return;
    }
    ghost var created, now := tpm.created, tpm.clock;
    r, t := OpenLoaded(tpm, sealed, Selection(sb.hash, sb.pcrs));
    if wanted.pcrs != map[] && AllAligned(sb.certifiedPcrs, wanted) {
      CertifiedLater(tpm, created, now, sb.pub, wanted, sb.certifiedPcrs);
    }
  }

  /** Unseals and seals again: the new object wraps the same bytes under the new values, with everything that sealing
      gives. Undisturbed it succeeds exactly if unsealing does and the new values can be sealed to. */
  method Reseal(tpm: Tpm, k: Key, sb: SealedBytes, uOpts: UnsealOpts, sOpts: SealOpts)
    returns (r: Result<SealedBytes, SealError>, ghost wanted: PCRs, ghost merged: PCRs, ghost c: Creation,
             ghost start: nat, ghost t: nat)
    requires tpm.Valid() && InMask(TargetPcrs(sOpts.target).Keys)
    modifies tpm
    ensures tpm.Valid() && old(tpm.clock) <= start <= t <= tpm.clock
    ensures tpm.transient == old(tpm.transient) && tpm.sessions == old(tpm.sessions)
    ensures r.Ok? ==>
              && SealedTo(tpm, merged, sOpts, start, t) && Certified(tpm, r.value, c, t)
              && SealedFor(tpm.h, k.pub, sb.priv.obj.sensitive, merged, r.value)
    ensures old(tpm.Quiet()) ==>
              (r.Ok? <==> && CanUnseal(tpm.h, old(tpm.banks), old(tpm.created), k.pub, sb, uOpts, wanted)
                          && CanSeal(old(tpm.banks), sOpts))
  {
    merged := NO_PCRS;
    c := Creation(Public(KeyedHash, true, [], 0, 0), Selection(NoAlg, []), map[], 0);
    var sensitive;
    sensitive, wanted := UnsealBytes(tpm, k, sb, uOpts);
    start, t := tpm.clock, tpm.clock;
    if sensitive.Err? {
      r := Err(sensitive.error);
      return;
    }
    r, merged, c, t := Seal(tpm, k, sensitive.value, sOpts);
  }

  /** Unsealing, as far as resealing needs it. */
  method UnsealBytes(tpm: Tpm, k: Key, sb: SealedBytes, opts: UnsealOpts)
     returns (r: Result<Bytes, SealError>, ghost wanted: PCRs)
    requires tpm.Valid()
    modifies tpm
    ensures tpm.Valid() && old(tpm.clock) <= tpm.clock
    ensures tpm.transient == old(tpm.transient) && tpm.sessions == old(tpm.sessions)
    ensures r.Ok? ==> r.value == sb.priv.obj.sensitive
    ensures old(tpm.Quiet()) ==>
              && tpm.Quiet() && tpm.banks == old(tpm.banks)
              && (r.Ok? <==> CanUnseal(tpm.h, old(tpm.banks), old(tpm.created), k.pub, sb, opts, wanted))
  {
    ghost var t;
    r, wanted, t := Unseal(tpm, k, sb, opts);
  }

  /** SHA-256 collides on the policies for the values in `b` and in `p`, or on these values themselves. */
  ghost predicate PolicyCollision(h: Hash, b: Banks, p: PCRs) {
    && Covers(b, p)
    && (|| Collision(h, SHA256, AuthMessage(h, PCRs(p.hash, ValuesFor(b, p))), AuthMessage(h, p))
        || Collision(h, SHA256, Concat(ValuesFor(b, p), NUM_PCRS), Concat(p.pcrs, NUM_PCRS)))
  }

  /** The values in `b` concatenate to the same bytes as those in `p`. */
  ghost predicate Agrees(b: Banks, p: PCRs) {
    p.pcrs == map[] || (Covers(b, p) && Concat(ValuesFor(b, p), NUM_PCRS) == Concat(p.pcrs, NUM_PCRS))
  }

  /** For values of digest length that is the same as holding each of them. */
  lemma AgreesIsHeld(b: Banks, p: PCRs)
    requires ValidBanks(b) && InMask(p.pcrs.Keys)
    ensures Held(b, p) ==> Agrees(b, p)
    ensures Agrees(b, p) && Blocks(p.pcrs, DigestSize(p.hash)) ==> Held(b, p)
  {
    if Covers(b, p) && Agrees(b, p) && Blocks(p.pcrs, DigestSize(p.hash)) {
      var now := ValuesFor(b, p);
      assert Blocks(now, DigestSize(p.hash));
      ConcatInjective(now, p.pcrs, DigestSize(p.hash), NUM_PCRS);
    }
  }

  /** Sealed data opens exactly when the PCRs it was sealed to agree with the values it was sealed to, and always
      when it was sealed to none, up to hash collisions. */
  lemma OpensExactly(h: Hash, b: Banks, parent: Public, sensitive: Bytes, merged: PCRs, sb: SealedBytes)
    requires ProperHash(h) && ValidBanks(b)
    requires SealedFor(h, parent, sensitive, merged, sb)
    requires InMask(merged.pcrs.Keys)
    ensures Agrees(b, merged) ==> Opens(h, b, parent, sb)
    ensures Opens(h, b, parent, sb) ==> Agrees(b, merged) || PolicyCollision(h, b, merged)
    ensures Blocks(merged.pcrs, DigestSize(merged.hash)) ==> (Agrees(b, merged) <==> Held(b, merged))
  {
    AgreesIsHeld(b, merged);
    assert sb.pcrs == [] <==> merged.pcrs == map[] by {
      if sb.pcrs != [] {
        assert sb.pcrs[0] in Elements(sb.pcrs);
      }
      assert Elements(sb.pcrs) == merged.pcrs.Keys;
    }
    var sel := Selection(sb.hash, sb.pcrs);
    assert Readable(b, sel) <==> Covers(b, merged) by {
      assert forall i | 0 <= i < |sb.pcrs| :: sb.pcrs[i] in Elements(sb.pcrs);
    }
    if sb.pcrs != [] && Readable(b, sel) {
      assert Values(b, sel) == ValuesFor(b, merged);
      if AuthOf(h, PCRs(sb.hash, Values(b, sel))) == AuthOf(h, merged) {
        AuthBindsConcat(h, PCRs(sb.hash, Values(b, sel)), merged);
      }
    }
  }

  /** Undisturbed and without certification: the original bytes exactly when the PCRs agree with what was sealed. */
  method UnsealUncertified(tpm: Tpm, k: Key, sb: SealedBytes, ghost sensitive: Bytes, ghost merged: PCRs)
    returns (r: Result<Bytes, SealError>)
    requires tpm.Valid() && tpm.Quiet()
    requires SealedFor(tpm.h, k.pub, sensitive, merged, sb) && InMask(merged.pcrs.Keys)
    modifies tpm
    ensures Agrees(old(tpm.banks), merged) ==> r == Ok(sensitive)
    ensures r.Ok? ==>
              r.value == sensitive && (Agrees(old(tpm.banks), merged) || PolicyCollision(tpm.h, old(tpm.banks), merged))
    ensures Blocks(merged.pcrs, DigestSize(merged.hash)) ==>
              (Agrees(old(tpm.banks), merged) <==> Held(old(tpm.banks), merged))
    ensures tpm.transient == old(tpm.transient) && tpm.sessions == old(tpm.sessions)
  {
    OpensExactly(tpm.h, tpm.banks, k.pub, sensitive, merged, sb);
    ghost var wanted, t;
    r, wanted, t := Unseal(tpm, k, sb, UnsealOpts(Selection(NoAlg, []), None));
  }

  /** What undisturbed unsealing needs beside the right PCR values: that the wanted values can be put together, and
      that they are among the certified ones. */
  ghost predicate Admits(b: Banks, sb: SealedBytes, opts: UnsealOpts, wanted: PCRs) {
    CanMerge(b, opts) && (wanted.pcrs != map[] ==> Subset(wanted, sb.certifiedPcrs))
  }

  /** A sealed object made by `Seal` is certifiable for exactly the values it carries. */
  lemma SealedCertifiable(h: Hash, created: set<Creation>, sb: SealedBytes, c: Creation, wanted: PCRs)
    requires c in created && CarriesCreation(h, sb, c) && SelfConsistent(h, sb)
    ensures Certifiable(h, created, sb, wanted) <==> Subset(wanted, sb.certifiedPcrs)
  {
    assert Created(h, created, sb.pub, sb.creationData);
  }

  /** The round trip. Data is sealed while other actors interfere at will, and they go on for `n` more turns. From some
      time `u` on nobody interferes, and the data is unsealed: the original bytes come back exactly when the PCRs
      then agree with the values that the data was sealed to and the wanted values are among the certified ones, up
      to hash collisions. Handles are conserved in any case. */
  method SealThenUnseal(tpm: Tpm, k: Key, sensitive: Bytes, sOpts: SealOpts, n: nat, uOpts: UnsealOpts)
    returns (sealed: Result<SealedBytes, SealError>, r: Result<Bytes, SealError>, ghost merged: PCRs,
             ghost wanted: PCRs, ghost u: nat)
    requires tpm.Valid() && InMask(TargetPcrs(sOpts.target).Keys)
    modifies tpm
    ensures tpm.Valid() && old(tpm.clock) <= u <= tpm.clock && (sealed.Ok? ==> old(tpm.clock) + n <= u)
    ensures tpm.transient == old(tpm.transient) && tpm.sessions == old(tpm.sessions)
    ensures sealed.Err? ==> r == Err(sealed.error)
    ensures r.Ok? ==> r.value == sensitive
    ensures sealed.Ok? && tpm.QuietFrom(u) ==>
              && (CanMerge(tpm.At(u), uOpts) ==> IsWanted(wanted, tpm.At(u), uOpts))
              && (Agrees(tpm.At(u), merged) && Admits(tpm.At(u), sealed.value, uOpts, wanted) ==> r.Ok?)
              && (r.Ok? ==> && Admits(tpm.At(u), sealed.value, uOpts, wanted)
                            && (Agrees(tpm.At(u), merged) || PolicyCollision(tpm.h, tpm.At(u), merged)))
    ensures sealed.Ok? && Blocks(TargetPcrs(sOpts.target), DigestSize(merged.hash)) ==>
              (Agrees(tpm.At(u), merged) <==> Held(tpm.At(u), merged))
  {
    wanted, u := NO_PCRS, tpm.clock;
    ghost var c, t;
    sealed, merged, c, t := Seal(tpm, k, sensitive, sOpts);
    if sealed.Err? {
      r := Err(sealed.error);
      return;
    }
    tpm.Wait(n);
    u := tpm.clock;
    ghost var created := tpm.created;
    MergedInMask(merged, sOpts);
    OpensExactly(tpm.h, tpm.banks, k.pub, sensitive, merged, sealed.value);
    r, wanted, t := Unseal(tpm, k, sealed.value, uOpts);
    SealedCertifiable(tpm.h, created, sealed.value, c, wanted);
  }

  lemma MergedInMask(merged: PCRs, opts: SealOpts)
    requires Merged(merged, opts.current, opts.target) && InMask(TargetPcrs(opts.target).Keys)
    ensures InMask(merged.pcrs.Keys)
    ensures Blocks(TargetPcrs(opts.target), DigestSize(merged.hash)) ==> Blocks(merged.pcrs, DigestSize(merged.hash))
  {
    forall i | i in merged.pcrs ensures i < NUM_PCRS {
      assert i in Elements(opts.current.pcrs) || i in TargetPcrs(opts.target);
    }
    forall i | i in merged.pcrs && i !in TargetPcrs(opts.target) ensures |merged.pcrs[i]| == DigestSize(merged.hash) {
      assert i in Elements(opts.current.pcrs);
    }
  }
}
