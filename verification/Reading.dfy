/** Reading PCRs on a TPM that others use too. */
module Reading {
  import opened Basics
  import opened Hashing
  import opened PcrSelection
  import opened TpmMachine

  datatype SealError =
    | Tpm(code: ErrorCode)
    | HashMismatch
    | Overlap
    | PcrsModified
    | WrongKeyType
    | NotCertified
    | NoFallbackKey
    | WrongCreationData

  /** All PCRs of a bank. */
  function FullPcrSel(a: HashAlg): (sel: Selection)
    ensures sel.hash == a && Distinct(sel.pcrs) && |sel.pcrs| == NUM_PCRS
    ensures forall i | 0 <= i < NUM_PCRS :: sel.pcrs[i] == i
  {
    Selection(a, seq(NUM_PCRS, i => i))
  }

  /** Where the chunk that starts at position `i` ends. */
  function ChunkEnd(sel: Selection, i: nat): (end: nat)
    requires i < |sel.pcrs|
    ensures i < end <= |sel.pcrs|
  {
    if i + 8 < |sel.pcrs| then i + 8 else |sel.pcrs|
  }

  /** What reading the rest of a selection, chunk by chunk, from position `i` at time `t` adds to `done`, and when it is
      finished: each chunk shows one moment, and different chunks show different moments. */
  ghost function Chunked(tpm: Tpm, sel: Selection, i: nat, t: nat, done: map<nat, Bytes>): Option<(map<nat, Bytes>,
                         nat)>
    requires i <= |sel.pcrs|
    decreases |sel.pcrs| - i
  {
    if i == |sel.pcrs| then Some((done, t))
    else
      var chunk, u := Selection(sel.hash, sel.pcrs[i..ChunkEnd(sel, i)]), tpm.NextTime(t);
      if tpm.env(u - 1).fault.Some? || !Readable(tpm.At(u), chunk) then None
      else Chunked(tpm, sel, ChunkEnd(sel, i), u, done + Values(tpm.At(u), chunk))
  }

  /** A selection of at most eight PCRs is read at one moment. */
  lemma OneChunk(tpm: Tpm, sel: Selection, t: nat)
    requires 0 < |sel.pcrs| <= 8 && Chunked(tpm, sel, 0, t, map[]).Some?
    ensures Readable(tpm.At(tpm.NextTime(t)), sel)
    ensures Chunked(tpm, sel, 0, t, map[]) == Some((Values(tpm.At(tpm.NextTime(t)), sel), tpm.NextTime(t)))
  {
    assert sel.pcrs[0..ChunkEnd(sel, 0)] == sel.pcrs;
    assert map[] + Values(tpm.At(tpm.NextTime(t)), sel) == Values(tpm.At(tpm.NextTime(t)), sel);
  }

  /** Every value in a reading was had at some moment of it. */
  lemma {:induction false} ChunkedValues(tpm: Tpm, sel: Selection, i: nat, t: nat, done: map<nat, Bytes>, from: nat)
    requires i <= |sel.pcrs| && from <= t && Chunked(tpm, sel, i, t, done).Some?
    requires forall u :: ValidBanks(tpm.At(u))
    requires SomeValues(done, sel.hash, sel.pcrs[..i]) && ReadDuring(tpm, PCRs(sel.hash, done), done.Keys, from, t)
    ensures var (p, u) := Chunked(tpm, sel, i, t, done).value;
            && SomeValues(p, sel.hash, sel.pcrs) && t <= u
            && ReadDuring(tpm, PCRs(sel.hash, p), Elements(sel.pcrs), from, u)
    decreases |sel.pcrs| - i
  {
    if i == |sel.pcrs| {
      assert sel.pcrs[..i] == sel.pcrs;
    } else {
      var end, u := ChunkEnd(sel, i), tpm.NextTime(t);
      AddChunk(done, sel, i, end, tpm.At(u));
      AddRead(tpm, done, Selection(sel.hash, sel.pcrs[i..end]), from, t, u);
      ChunkedValues(tpm, sel, end, u, done + Values(tpm.At(u), Selection(sel.hash, sel.pcrs[i..end])), from);
    }
  }

  /** If nobody interferes, a reading gives the current values; if no command fails either, it fails only on
      unreadable PCRs. */
  lemma {:induction false} ChunkedCalm(tpm: Tpm, sel: Selection, i: nat, t: nat, done: map<nat, Bytes>)
    requires i <= |sel.pcrs| && tpm.CalmFrom(t) && ValidBanks(tpm.At(t))
    requires SomeValues(done, sel.hash, sel.pcrs[..i]) && CurrentValues(done, sel.hash, sel.pcrs[..i], tpm.At(t))
    ensures var read := Chunked(tpm, sel, i, t, done);
            var readable := i == |sel.pcrs| || Readable(tpm.At(t), Selection(sel.hash, sel.pcrs[i..]));
            && (read.Some? ==> readable && CurrentValues(read.value.0, sel.hash, sel.pcrs, tpm.At(t)))
            && (tpm.QuietFrom(t) && readable ==> read.Some?)
    decreases |sel.pcrs| - i
  {
    if i == |sel.pcrs| {
      assert sel.pcrs[..i] == sel.pcrs;
    } else {
      var end, u := ChunkEnd(sel, i), tpm.NextTime(t);
      tpm.CalmAt(t, u);
      var b, rest := tpm.At(t), sel.pcrs[i..];
      assert rest == sel.pcrs[i..end] + sel.pcrs[end..];
      ReadableConcat(b, sel.hash, sel.pcrs[i..end], sel.pcrs[end..]);
      if Readable(b, Selection(sel.hash, sel.pcrs[i..end])) {
        AddChunk(done, sel, i, end, b);
        ChunkedCalm(tpm, sel, end, u, done + Values(b, Selection(sel.hash, sel.pcrs[i..end])));
      }
    }
  }

  lemma ReadableConcat(b: Banks, a: HashAlg, xs: seq<nat>, ys: seq<nat>)
    requires xs != []
    ensures Readable(b, Selection(a, xs + ys)) <==>
            Readable(b, Selection(a, xs)) && (ys == [] || Readable(b, Selection(a, ys)))
  {
    var all := xs + ys;
    assert forall i | 0 <= i < |xs| :: all[i] == xs[i];
    assert forall i | 0 <= i < |ys| :: all[|xs| + i] == ys[i];
  }

  /** One chunk. */
  method ReadChunk(tpm: Tpm, sel: Selection, i: nat, done: map<nat, Bytes>)
     returns (r: Result<map<nat, Bytes>, ErrorCode>)
    requires tpm.Valid() && i < |sel.pcrs|
    modifies tpm`clock, tpm`banks, tpm`pcrCounter, tpm`created
    ensures tpm.Valid() && old(tpm.created) <= tpm.created && tpm.clock >= old(tpm.clock)
    ensures Chunked(tpm, sel, i, old(tpm.clock), done)
            == if r.Ok? then Chunked(tpm, sel, ChunkEnd(sel, i), tpm.clock, r.value) else None
    ensures old(tpm.CalmFrom(tpm.clock)) ==>
              tpm.CalmFrom(tpm.clock) && tpm.banks == old(tpm.banks) && tpm.created == old(tpm.created)
    ensures old(tpm.Quiet()) ==>
              && tpm.Quiet() && tpm.banks == old(tpm.banks) && tpm.pcrCounter == old(tpm.pcrCounter)
              && tpm.created == old(tpm.created)
  {
    var read := tpm.PcrRead(Selection(sel.hash, sel.pcrs[i..ChunkEnd(sel, i)]));
    return if read.Ok? then Ok(done + read.value) else Err(read.error);
  }

  /** The loop of chunks, and when it is finished. */
  method ReadChunks(tpm: Tpm, sel: Selection) returns (r: Result<map<nat, Bytes>, ErrorCode>)
    requires tpm.Valid()
    modifies tpm`clock, tpm`banks, tpm`pcrCounter, tpm`created
    ensures tpm.Valid() && old(tpm.created) <= tpm.created && tpm.clock >= old(tpm.clock)
    ensures r.Ok? <==> Chunked(tpm, sel, 0, old(tpm.clock), map[]).Some?
    ensures r.Ok? ==> Chunked(tpm, sel, 0, old(tpm.clock), map[]) == Some((r.value, tpm.clock))
    ensures old(tpm.CalmFrom(tpm.clock)) ==>
              tpm.CalmFrom(tpm.clock) && tpm.banks == old(tpm.banks) && tpm.created == old(tpm.created)
    ensures old(tpm.Quiet()) ==>
              && tpm.Quiet() && tpm.banks == old(tpm.banks) && tpm.pcrCounter == old(tpm.pcrCounter)
              && tpm.created == old(tpm.created)
  {
    var pcrs: map<nat, Bytes> := map[];
    ghost var whole := Chunked(tpm, sel, 0, tpm.clock, pcrs);
    var i := 0;
    while i < |sel.pcrs|
      invariant 0 <= i <= |sel.pcrs|
      invariant tpm.Valid() && old(tpm.created) <= tpm.created && tpm.clock >= old(tpm.clock)
      invariant whole == Chunked(tpm, sel, i, tpm.clock, pcrs)
      invariant old(tpm.CalmFrom(tpm.clock)) ==>
                  tpm.CalmFrom(tpm.clock) && tpm.banks == old(tpm.banks) && tpm.created == old(tpm.created)
      invariant old(tpm.Quiet()) ==>
                  && tpm.Quiet() && tpm.banks == old(tpm.banks) && tpm.pcrCounter == old(tpm.pcrCounter)
                  && tpm.created == old(tpm.created)
    {
      var read := ReadChunk(tpm, sel, i, pcrs);
      if read.Err? {
        return read;
      }
      pcrs := read.value;
      i := ChunkEnd(sel, i);
    }
    return Ok(pcrs);
  }

  /** Reads a selection in chunks of eight. Other actors may change PCRs between two chunks, so the values need not have
      been held together, unless there is only one chunk; if nobody interferes they are the current ones. */
  method ReadPCRs(tpm: Tpm, sel: Selection) returns (r: Result<PCRs, SealError>)
    requires tpm.Valid()
    modifies tpm`clock, tpm`banks, tpm`pcrCounter, tpm`created
    ensures tpm.Valid() && old(tpm.created) <= tpm.created && tpm.clock >= old(tpm.clock)
    ensures r.Ok? <==> Chunked(tpm, sel, 0, old(tpm.clock), map[]).Some?
    ensures r.Ok? ==> Chunked(tpm, sel, 0, old(tpm.clock), map[]) == Some((r.value.pcrs, tpm.clock))
    ensures r.Ok? ==> r.value.hash == sel.hash && r.value.pcrs.Keys == Elements(sel.pcrs)
    ensures r.Ok? ==> Blocks(r.value.pcrs, DigestSize(sel.hash)) && InMask(r.value.pcrs.Keys)
    ensures r.Ok? ==> ReadDuring(tpm, r.value, Elements(sel.pcrs), old(tpm.clock), tpm.clock)
    ensures old(tpm.CalmFrom(tpm.clock)) ==>
              tpm.CalmFrom(tpm.clock) && tpm.banks == old(tpm.banks) && tpm.created == old(tpm.created)
    ensures old(tpm.CalmFrom(tpm.clock)) && r.Ok? ==>
              && (sel.pcrs == [] || Readable(tpm.banks, sel))
              && CurrentValues(r.value.pcrs, sel.hash, sel.pcrs, tpm.banks)
    ensures old(tpm.Quiet()) ==>
              && tpm.Quiet() && tpm.banks == old(tpm.banks) && tpm.pcrCounter == old(tpm.pcrCounter)
              && tpm.created == old(tpm.created)
              && (r.Ok? <==> sel.pcrs == [] || Readable(tpm.banks, sel))
              && (r.Ok? ==> CurrentValues(r.value.pcrs, sel.hash, sel.pcrs, tpm.banks))
  {
    forall u ensures ValidBanks(tpm.At(u)) {
      tpm.AtValid(u);
    }
    if Chunked(tpm, sel, 0, tpm.clock, map[]).Some? {
      ChunkedValues(tpm, sel, 0, tpm.clock, map[], tpm.clock);
    }
    if tpm.CalmFrom(tpm.clock) {
      ChunkedCalm(tpm, sel, 0, tpm.clock, map[]);
      assert sel.pcrs[0..] == sel.pcrs;
    }
    var pcrs := ReadChunks(tpm, sel);
    r := if pcrs.Ok? then Ok(PCRs(sel.hash, pcrs.value)) else Err(Tpm(pcrs.error));
  }

  /** PCR `i` of bank `a` had the value `v` at some moment. */
  ghost predicate HadValue(tpm: Tpm, a: HashAlg, i: nat, v: Bytes, from: nat, to: nat) {
    exists t :: from <= t <= to && a in tpm.At(t) && i < |tpm.At(t)[a]| && tpm.At(t)[a][i] == v
  }

  /** Each of the given PCRs had its value in `p` at some moment, though perhaps not all at the same one. */
  ghost predicate ReadDuring(tpm: Tpm, p: PCRs, indexes: set<nat>, from: nat, to: nat) {
    forall i | i in indexes :: i in p.pcrs && HadValue(tpm, p.hash, i, p.pcrs[i], from, to)
  }

  lemma AddRead(tpm: Tpm, pcrs: map<nat, Bytes>, chunk: Selection, from: nat, before: nat, now: nat)
    requires from <= before <= now && ReadDuring(tpm, PCRs(chunk.hash, pcrs), pcrs.Keys, from, before)
    requires Readable(tpm.At(now), chunk)
    ensures var all := pcrs + Values(tpm.At(now), chunk); ReadDuring(tpm, PCRs(chunk.hash, all), all.Keys, from, now)
  {
    var all := pcrs + Values(tpm.At(now), chunk);
    forall i | i in all ensures HadValue(tpm, chunk.hash, i, all[i], from, now) {
      if i in chunk.pcrs {
        assert tpm.At(now)[chunk.hash][i] == all[i];
      } else {
        var t :| && from <= t <= before && chunk.hash in tpm.At(t) && i < |tpm.At(t)[chunk.hash]|
                 && tpm.At(t)[chunk.hash][i] == pcrs[i];
      }
    }
  }

  ghost predicate SomeValues(pcrs: map<nat, Bytes>, a: HashAlg, indexes: seq<nat>) {
    pcrs.Keys == Elements(indexes) && Blocks(pcrs, DigestSize(a)) && InMask(pcrs.Keys)
  }

  ghost predicate CurrentValues(pcrs: map<nat, Bytes>, a: HashAlg, indexes: seq<nat>, b: Banks) {
    indexes != [] ==> Readable(b, Selection(a, indexes)) && forall i | i in indexes :: i in pcrs && pcrs[i] == b[a][i]
  }

  lemma AddChunk(pcrs: map<nat, Bytes>, sel: Selection, i: nat, end: nat, b: Banks)
    requires i < end <= |sel.pcrs| && SomeValues(pcrs, sel.hash, sel.pcrs[..i]) && ValidBanks(b)
    requires Readable(b, Selection(sel.hash, sel.pcrs[i..end]))
    ensures var all := pcrs + Values(b, Selection(sel.hash, sel.pcrs[i..end]));
            && SomeValues(all, sel.hash, sel.pcrs[..end])
            && (CurrentValues(pcrs, sel.hash, sel.pcrs[..i], b) ==> CurrentValues(all, sel.hash, sel.pcrs[..end], b))
  {
    assert sel.pcrs[..end] == sel.pcrs[..i] + sel.pcrs[i..end];
    AddValues(pcrs, sel.hash, sel.pcrs[..i], sel.pcrs[i..end], b);
    if CurrentValues(pcrs, sel.hash, sel.pcrs[..i], b) {
      AddCurrent(pcrs, sel.hash, sel.pcrs[..i], sel.pcrs[i..end], b);
    }
  }

  lemma AddValues(pcrs: map<nat, Bytes>, a: HashAlg, done: seq<nat>, chunk: seq<nat>, b: Banks)
    requires SomeValues(pcrs, a, done) && ValidBanks(b) && Readable(b, Selection(a, chunk))
    ensures SomeValues(pcrs + Values(b, Selection(a, chunk)), a, done + chunk)
  {
    ValuesAreBlocks(b, Selection(a, chunk));
    assert Elements(done + chunk) == Elements(done) + Elements(chunk);
  }

  lemma AddCurrent(pcrs: map<nat, Bytes>, a: HashAlg, done: seq<nat>, chunk: seq<nat>, b: Banks)
    requires chunk != [] && Readable(b, Selection(a, chunk)) && CurrentValues(pcrs, a, done, b)
    ensures CurrentValues(pcrs + Values(b, Selection(a, chunk)), a, done + chunk, b)
  {
    var all := pcrs + Values(b, Selection(a, chunk));
    forall i | i in done + chunk ensures i in all && all[i] == b[a][i] {
    }
  }

  lemma CurrentIsValues(pcrs: map<nat, Bytes>, sel: Selection, b: Banks)
    requires sel.pcrs != [] && pcrs.Keys == Elements(sel.pcrs) && CurrentValues(pcrs, sel.hash, sel.pcrs, b)
    ensures pcrs == Values(b, sel)
  {
  }

  function TargetPcrs(proto: Option<PCRs>): map<nat, Bytes> {
    if proto.Some? then proto.value.pcrs else map[]
  }

  /** Whether a selection and explicit values can be combined. */
  predicate Mergeable(sel: Selection, proto: Option<PCRs>) {
    TargetPcrs(proto) == map[] || sel.pcrs == []
    || (sel.hash == proto.value.hash && forall i | 0 <= i < |sel.pcrs| :: sel.pcrs[i] !in proto.value.pcrs)
  }

  /** `p` consists of the explicit values and of some values for the selection. */
  ghost predicate Merged(p: PCRs, sel: Selection, proto: Option<PCRs>) {
    && Mergeable(sel, proto)
    && p.hash == (if TargetPcrs(proto) == map[] then sel.hash else proto.value.hash)
    && p.pcrs.Keys == Elements(sel.pcrs) + TargetPcrs(proto).Keys
    && (forall i | i in TargetPcrs(proto) :: p.pcrs[i] == TargetPcrs(proto)[i])
    && (forall i | i in sel.pcrs :: |p.pcrs[i]| == DigestSize(p.hash) && i < NUM_PCRS)
  }

  /** `p` holds the current values for the selection. */
  ghost predicate HoldsCurrent(p: PCRs, sel: Selection, b: Banks) {
    CurrentValues(p.pcrs, sel.hash, sel.pcrs, b)
  }

  /** The values that a merge at time `t` takes: those read, and the given ones. */
  ghost predicate MergedFrom(tpm: Tpm, p: PCRs, sel: Selection, proto: Option<PCRs>, t: nat) {
    var read := Chunked(tpm, sel, 0, t, map[]);
    read.Some? && p.pcrs == read.value.0 + TargetPcrs(proto)
  }

  /** A merge at time `t` succeeds and is finished at time `u`. */
  ghost predicate MergesBy(tpm: Tpm, sel: Selection, proto: Option<PCRs>, t: nat, u: nat) {
    var read := Chunked(tpm, sel, 0, t, map[]);
    Mergeable(sel, proto) && read.Some? && read.value.1 == u
  }

  method MergePCRSelAndProto(tpm: Tpm, sel: Selection, proto: Option<PCRs>) returns (r: Result<PCRs, SealError>)
    requires tpm.Valid()
    modifies tpm`clock, tpm`banks, tpm`pcrCounter, tpm`created
    ensures tpm.Valid() && old(tpm.created) <= tpm.created && tpm.clock >= old(tpm.clock)
    ensures r.Ok? ==>
              Merged(r.value, sel, proto) && ReadDuring(tpm, r.value, Elements(sel.pcrs), old(tpm.clock), tpm.clock)
    ensures r.Ok? <==> Mergeable(sel, proto) && Chunked(tpm, sel, 0, old(tpm.clock), map[]).Some?
    ensures r.Ok? ==>
              && MergesBy(tpm, sel, proto, old(tpm.clock), tpm.clock)
              && MergedFrom(tpm, r.value, sel, proto, old(tpm.clock))
    ensures old(tpm.CalmFrom(tpm.clock)) ==>
              tpm.CalmFrom(tpm.clock) && tpm.banks == old(tpm.banks) && tpm.created == old(tpm.created)
    ensures old(tpm.CalmFrom(tpm.clock)) && r.Ok? ==>
              (sel.pcrs == [] || Readable(tpm.banks, sel)) && HoldsCurrent(r.value, sel, tpm.banks)
    ensures old(tpm.Quiet()) ==>
              && tpm.Quiet() && tpm.banks == old(tpm.banks) && tpm.pcrCounter == old(tpm.pcrCounter)
              && tpm.created == old(tpm.created)
              && (r.Ok? <==> Mergeable(sel, proto) && (sel.pcrs == [] || Readable(tpm.banks, sel)))
              && (r.Ok? ==> HoldsCurrent(r.value, sel, tpm.banks))
  {
    if proto.None? || proto.value.pcrs == map[] {
      r := ReadPCRs(tpm, sel);
      assert r.Ok? ==> r.value.pcrs + map[] == r.value.pcrs;
      return;
    }
    if sel.pcrs == [] {
      assert map[] + proto.value.pcrs == proto.value.pcrs;
      return Ok(proto.value);
    }
    if sel.hash != proto.value.hash {
      return Err(HashMismatch);
    }
    if exists i | 0 <= i < |sel.pcrs| :: sel.pcrs[i] in proto.value.pcrs {
      return Err(Overlap);
    }
    var current := ReadPCRs(tpm, sel);
    if current.Err? {
      return current;
    }
    AddGiven(tpm, current.value, sel, proto, old(tpm.clock), tpm.clock, tpm.banks);
    return Ok(current.value.(pcrs := current.value.pcrs + proto.value.pcrs));
  }

  /** Given values for other PCRs change nothing about the values that were read. */
  lemma AddGiven(tpm: Tpm, p: PCRs, sel: Selection, proto: Option<PCRs>, from: nat, to: nat, b: Banks)
    requires proto.Some? && Mergeable(sel, proto) && sel.pcrs != [] && proto.value.pcrs != map[]
    requires p.hash == sel.hash && SomeValues(p.pcrs, sel.hash, sel.pcrs)
    requires ReadDuring(tpm, p, Elements(sel.pcrs), from, to)
    ensures var all := PCRs(p.hash, p.pcrs + proto.value.pcrs);
            && Merged(all, sel, proto) && ReadDuring(tpm, all, Elements(sel.pcrs), from, to)
            && (CurrentValues(p.pcrs, sel.hash, sel.pcrs, b) ==> HoldsCurrent(all, sel, b))
  {
    var all := PCRs(p.hash, p.pcrs + proto.value.pcrs);
    forall i | i in sel.pcrs ensures i !in proto.value.pcrs && all.pcrs[i] == p.pcrs[i] && i in Elements(sel.pcrs) {
      var k :| 0 <= k < |sel.pcrs| && sel.pcrs[k] == i;
    }
  }

  /** Merged values of at most eight selected PCRs were all held at one moment. */
  lemma MergedTogether(tpm: Tpm, p: PCRs, sel: Selection, proto: Option<PCRs>, t: nat)
    requires Merged(p, sel, proto) && MergedFrom(tpm, p, sel, proto, t) && |sel.pcrs| <= 8
    ensures HoldsCurrent(p, sel, tpm.At(tpm.NextTime(t)))
  {
    if sel.pcrs != [] {
      OneChunk(tpm, sel, t);
    }
  }
}
