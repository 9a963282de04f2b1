/** Sealing to more than eight PCRs: their values are read in several chunks, between which others may change them. */
module SpreadSealing {
  import opened Basics
  import opened Hashing
  import opened PcrSelection
  import opened TpmMachine
  import opened Keys
  import opened Reading
  import opened Sealing

  function Filled(v: byte): (b: Banks)
    ensures SHA256 in b && |b[SHA256]| == NUM_PCRS
    ensures forall i | 0 <= i < NUM_PCRS :: b[SHA256][i] == seq(DigestSize(SHA256), _ => v)
  {
    map[SHA256 := seq(NUM_PCRS, _ => seq(DigestSize(SHA256), _ => v))]
  }

  lemma FilledValid(v: byte)
    ensures ValidBanks(Filled(v))
  {
  }

  lemma FilledDiffer(i: nat)
    requires i < NUM_PCRS
    ensures Filled(0)[SHA256][i] != Filled(1)[SHA256][i]
  {
    assert Filled(0)[SHA256][i][0] != Filled(1)[SHA256][i][0];
  }

  /** Between the first two commands another actor changes every PCR. */
  function OneChange(n: nat): Turn {
    if n == 1 then Turn(Some(Filled(1)), {}, None) else QUIET
  }

  /** A TPM on which that happens. */
  ghost predicate Changes(tpm: Tpm) {
    tpm.env == OneChange && tpm.init == Filled(0) && forall n :: tpm.extra(n) == 0
  }

  lemma {:induction false} BanksOfOneChange(tpm: Tpm, t: nat)
    requires Changes(tpm)
    ensures tpm.At(t) == Filled(if t < 2 then 0 else 1)
  {
    if t > 0 {
      BanksOfOneChange(tpm, t - 1);
    }
  }

  /** The chunks after the first show the changed values. */
  lemma {:induction false} LaterChunks(tpm: Tpm, sel: Selection, i: nat, t: nat, done: map<nat, Bytes>)
    requires Changes(tpm) && t >= 1 && i < |sel.pcrs| && Readable(Filled(1), sel)
    ensures var read := Chunked(tpm, sel, i, t, done);
            && read.Some? && read.value.1 >= 2
            && (forall j | j in sel.pcrs[i..] :: j in read.value.0 && read.value.0[j] == Filled(1)[SHA256][j])
            && (forall j | j in done && j !in sel.pcrs[i..] :: j in read.value.0 && read.value.0[j] == done[j])
    decreases |sel.pcrs| - i
  {
    var end, u := ChunkEnd(sel, i), tpm.NextTime(t);
    BanksOfOneChange(tpm, u);
    var chunk := Selection(sel.hash, sel.pcrs[i..end]);
    var next := done + Values(tpm.At(u), chunk);
    assert sel.pcrs[i..] == chunk.pcrs + sel.pcrs[end..];
    if end < |sel.pcrs| {
      LaterChunks(tpm, sel, end, u, next);
    } else {
      assert Chunked(tpm, sel, end, u, next) == Some((next, u));
    }
  }

  lemma SpreadRead(tpm: Tpm, sel: Selection)
    requires Changes(tpm) && |sel.pcrs| > 8 && Distinct(sel.pcrs) && Readable(Filled(1), sel)
    ensures var read := Chunked(tpm, sel, 0, 0, map[]);
            && read.Some? && read.value.1 >= 2 && sel.pcrs[0] in read.value.0 && sel.pcrs[8] in read.value.0
            && read.value.0[sel.pcrs[0]] == Filled(0)[SHA256][sel.pcrs[0]]
            && read.value.0[sel.pcrs[8]] == Filled(1)[SHA256][sel.pcrs[8]]
  {
    BanksOfOneChange(tpm, 1);
    var chunk := Selection(sel.hash, sel.pcrs[0..8]);
    assert chunk.pcrs[0] == sel.pcrs[0] && sel.pcrs[8..][0] == sel.pcrs[8];
    assert sel.pcrs[0] !in sel.pcrs[8..];
    var p := map[] + Values(tpm.At(1), chunk);
    LaterChunks(tpm, sel, 8, 1, p);
    assert Chunked(tpm, sel, 0, 0, map[]) == Chunked(tpm, sel, 8, 1, p);
  }

  /** With more than eight PCRs the sealed values need not have been held together: for every such selection there is a
      run in which sealing succeeds although the current values it sealed to were never the PCR values. */
  method SealSpread(h: Hash, primary: Public -> nat, k: Key, sensitive: Bytes, sel: Selection)
    returns (tpm: Tpm, r: Result<SealedBytes, SealError>, ghost merged: PCRs)
    requires ProperHash(h) && sel.hash == SHA256 && |sel.pcrs| > 8 && Distinct(sel.pcrs)
    requires forall i | 0 <= i < |sel.pcrs| :: sel.pcrs[i] < NUM_PCRS
    ensures fresh(tpm) && tpm.Valid() && r.Ok? && SealedFor(h, k.pub, sensitive, merged, r.value)
    ensures Merged(merged, sel, None) && forall t :: !HoldsCurrent(merged, sel, tpm.At(t))
  {
    FilledValid(0);
    FilledValid(1);
    tpm := new Tpm(h, OneChange, _ => 0, Filled(0), primary);
    SpreadRead(tpm, sel);
    ghost var u := Chunked(tpm, sel, 0, 0, map[]).value.1;
    BanksOfOneChange(tpm, u);
    assert MergesBy(tpm, sel, None, 0, u) && tpm.QuietFrom(u);
    ghost var c, t;
    r, merged, c, t := Seal(tpm, k, sensitive, SealOpts(sel, None));
    NeverTogether(tpm, merged, sel);
  }

  lemma NeverTogether(tpm: Tpm, merged: PCRs, sel: Selection)
    requires Changes(tpm) && |sel.pcrs| > 8 && Distinct(sel.pcrs) && Readable(Filled(1), sel)
    requires MergedFrom(tpm, merged, sel, None, 0)
    ensures forall t :: !HoldsCurrent(merged, sel, tpm.At(t))
  {
    SpreadRead(tpm, sel);
    var first, ninth := sel.pcrs[0], sel.pcrs[8];
    assert merged.pcrs[first] == Filled(0)[SHA256][first] && merged.pcrs[ninth] == Filled(1)[SHA256][ninth];
    FilledDiffer(first);
    FilledDiffer(ninth);
    forall t ensures !HoldsCurrent(merged, sel, tpm.At(t)) {
      BanksOfOneChange(tpm, t);
    }
  }
}
