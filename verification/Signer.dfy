/** Concurrent signing with PCR-bound keys: any number of threads, one global mutex, and one policy session per key.
    The policy digest of a session is the list of PCR readings that PolicyPCR put into it since it was last zero. */
module Signers {
  import opened Basics

  type Values = map<nat, Bytes>

  /** `stale` says that some PCR changed after the last PolicyPCR. */
  datatype PolicySession = PolicySession(ext: seq<Values>, stale: bool)

  const FRESH := PolicySession([], false)

  /** Where a thread is in its Sign call. */
  datatype Phase = Outside | Locked | Authorized | Leaving

  datatype State = State(owner: Option<nat>, pcs: seq<Phase>, sessions: seq<PolicySession>, current: Values)

  /** Which session each thread's key uses (keys may be shared), and each session's PCRs and required policy. */
  datatype Config = Config(session: seq<nat>, selection: seq<set<nat>>, policy: seq<Values>)

  ghost predicate ValidConfig(c: Config) {
    && |c.policy| == |c.selection|
    && forall i | 0 <= i < |c.session| :: c.session[i] < |c.selection|
  }

  /** What can happen next: a step of thread `i`, or a PCR change by somebody else. */
  datatype Step =
    | Lock(i: nat)
    | AuthOk(i: nat)
    | AuthFail(i: nat)
    | SignOk(i: nat)
    | SignFail(i: nat)
    | Unlock(i: nat)
    | PcrChange(values: Values)

  function Reading(current: Values, selection: set<nat>): Values {
    map k | k in selection && k in current :: current[k]
  }

  ghost predicate Shaped(c: Config, s: State) {
    ValidConfig(c) && |s.pcs| == |c.session| && |s.sessions| == |c.selection|
  }

  /** The signing command succeeds only on a session that holds exactly the key's policy; it may fail at any time. */
  ghost predicate Enabled(c: Config, s: State, step: Step)
    requires Shaped(c, s)
  {
    match step
    case Lock(i) => i < |s.pcs| && s.pcs[i] == Outside && s.owner.None?
    case AuthOk(i) => i < |s.pcs| && s.pcs[i] == Locked
    case AuthFail(i) => i < |s.pcs| && s.pcs[i] == Locked
    case SignOk(i) =>
      i < |s.pcs| && s.pcs[i] == Authorized
      && s.sessions[c.session[i]] == PolicySession([c.policy[c.session[i]]], false)
    case SignFail(i) => i < |s.pcs| && s.pcs[i] == Authorized
    case Unlock(i) => i < |s.pcs| && s.pcs[i] == Leaving
    case PcrChange(_) => true
  }

  ghost function Next(c: Config, s: State, step: Step): (s': State)
    requires Shaped(c, s) && Enabled(c, s, step)
    ensures Shaped(c, s')
  {
    match step
    case Lock(i) => s.(owner := Some(i), pcs := s.pcs[i := Locked])
    case AuthOk(i) =>
      var x := c.session[i];
      var ext := s.sessions[x].ext + [Reading(s.current, c.selection[x])];
      s.(pcs := s.pcs[i := Authorized], sessions := s.sessions[x := PolicySession(ext, s.sessions[x].stale)])
    case AuthFail(i) => s.(pcs := s.pcs[i := Leaving])
    case SignOk(i) => s.(pcs := s.pcs[i := Leaving], sessions := s.sessions[c.session[i] := FRESH])
    case SignFail(i) => s.(pcs := s.pcs[i := Leaving])
    case Unlock(i) => s.(owner := None, pcs := s.pcs[i := Outside])
    case PcrChange(values) =>
      var aged := seq(|s.sessions|, x requires 0 <= x < |s.sessions| => Aged(s.sessions[x]));
      s.(sessions := aged, current := values)
  }

  function Aged(p: PolicySession): PolicySession {
    p.(stale := p.ext != [])
  }

  ghost function Start(c: Config, current: Values): (s: State)
    requires ValidConfig(c)
    ensures Shaped(c, s)
  {
    State(None, seq(|c.session|, _ => Outside), seq(|c.selection|, _ => FRESH), current)
  }

  /** The states a run goes through; `None` once a step is not possible. */
  ghost function After(c: Config, start: Values, run: seq<Step>): (s: Option<State>)
    requires ValidConfig(c)
    ensures s.Some? ==> Shaped(c, s.value)
  {
    if run == [] then Some(Start(c, start))
    else
      var before := After(c, start, run[..|run| - 1]);
      if before.Some? && Enabled(c, before.value, run[|run| - 1]) then Some(Next(c, before.value, run[|run| - 1])) else None
  }

  /** The sessions on which a signing command failed. */
  ghost function Failed(c: Config, run: seq<Step>): set<nat> {
    set k | 0 <= k < |run| && run[k].SignFail? && run[k].i < |c.session| :: c.session[run[k].i]
  }

  /** Some thread has authorized session `x` and is about to sign. */
  ghost predicate InUse(c: Config, s: State, x: nat)
    requires Shaped(c, s)
  {
    s.owner.Some? && s.owner.value < |s.pcs| && s.pcs[s.owner.value] == Authorized && c.session[s.owner.value] == x
  }

  ghost predicate Exclusive(s: State) {
    forall i | 0 <= i < |s.pcs| :: s.pcs[i] != Outside <==> s.owner == Some(i)
  }

  /** A session holds one reading while in use and none otherwise; one on which signing failed holds at least one
      more. */
  ghost predicate Counted(c: Config, s: State, failed: set<nat>)
    requires Shaped(c, s)
  {
    forall x | 0 <= x < |s.sessions| ::
      var n := |s.sessions[x].ext| - if InUse(c, s, x) then 1 else 0;
      && (if x in failed then n >= 1 else n == 0)
      && (s.sessions[x].stale ==> s.sessions[x].ext != [])
  }

  lemma FailedSnoc(c: Config, run: seq<Step>, step: Step)
    ensures Failed(c, run + [step]) ==
            Failed(c, run) + if step.SignFail? && step.i < |c.session| then {c.session[step.i]} else {}
  {
    var all := run + [step];
    forall x | x in Failed(c, run) ensures x in Failed(c, all) {
      var k :| 0 <= k < |run| && run[k].SignFail? && run[k].i < |c.session| && c.session[run[k].i] == x;
      assert all[k] == run[k];
    }
    if step.SignFail? && step.i < |c.session| {
      assert all[|run|] == step;
    }
  }

  lemma StepKeepsExclusive(c: Config, s: State, step: Step)
    requires Shaped(c, s) && Exclusive(s) && Enabled(c, s, step)
    ensures Exclusive(Next(c, s, step))
  {
  }

  lemma StepKeepsCounted(c: Config, s: State, step: Step, failed: set<nat>)
    requires Shaped(c, s) && Exclusive(s) && Counted(c, s, failed) && Enabled(c, s, step)
    ensures Counted(c, Next(c, s, step), failed + if step.SignFail? then {c.session[step.i]} else {})
  {
  }

  /** The invariant of every run, whatever fails. */
  lemma {:induction false} RunInvariant(c: Config, start: Values, run: seq<Step>)
    requires ValidConfig(c) && After(c, start, run).Some?
    ensures var s := After(c, start, run).value; Exclusive(s) && Counted(c, s, Failed(c, run))
  {
    if run != [] {
      var front, step := run[..|run| - 1], run[|run| - 1];
      RunInvariant(c, start, front);
      assert run == front + [step];
      FailedSnoc(c, front, step);
      var s := After(c, start, front).value;
      StepKeepsExclusive(c, s, step);
      StepKeepsCounted(c, s, step, Failed(c, front));
    }
  }

  /** Whenever the mutex is free, a session's digest is zero exactly if no signing command on it has failed. */
  lemma ZeroWhenFree(c: Config, start: Values, run: seq<Step>, x: nat)
    requires ValidConfig(c) && After(c, start, run).Some? && After(c, start, run).value.owner.None? && x < |c.selection|
    ensures After(c, start, run).value.sessions[x].ext == [] <==> x !in Failed(c, run)
  {
    RunInvariant(c, start, run);
  }

  lemma {:induction false} PrefixRuns(c: Config, start: Values, run: seq<Step>, k: nat)
    requires ValidConfig(c) && After(c, start, run).Some? && k <= |run|
    ensures After(c, start, run[..k]).Some?
  {
    if k == |run| {
      assert run[..k] == run;
    } else {
      assert run[..|run| - 1][..k] == run[..k];
      PrefixRuns(c, start, run[..|run| - 1], k);
    }
  }

  /** In every run, a signing command on a session on which none failed before sees exactly one PolicyPCR, and
      nobody else holds an authorized session then. A session on which one failed before sees at least two,
      so that signing never succeeds on it again. */
  lemma SignSeesOneExtension(c: Config, start: Values, run: seq<Step>, k: nat)
    requires ValidConfig(c) && After(c, start, run).Some? && k < |run| && (run[k].SignOk? || run[k].SignFail?)
    ensures After(c, start, run[..k]).Some? && run[k].i < |c.session|
    ensures var s, x := After(c, start, run[..k]).value, c.session[run[k].i];
            && (x !in Failed(c, run[..k]) ==> |s.sessions[x].ext| == 1)
            && (x in Failed(c, run[..k]) ==> |s.sessions[x].ext| >= 2 && run[k].SignFail?)
            && (forall j | 0 <= j < |s.pcs| && j != run[k].i :: s.pcs[j] == Outside)
  {
    PrefixRuns(c, start, run, k + 1);
    assert run[..k + 1][..k] == run[..k] && run[..k + 1][k] == run[k];
    RunInvariant(c, start, run[..k]);
    var s := After(c, start, run[..k]).value;
    assert InUse(c, s, c.session[run[k].i]) && s.owner == Some(run[k].i);
  }

  lemma AfterSnoc(c: Config, start: Values, run: seq<Step>, step: Step)
    requires ValidConfig(c) && After(c, start, run).Some? && Enabled(c, After(c, start, run).value, step)
    ensures After(c, start, run + [step]) == Some(Next(c, After(c, start, run).value, step))
  {
    assert (run + [step])[..|run|] == run;
  }

  /** Four steps of one call on a fresh session, with nothing in between. */
  lemma SignRound(c: Config, s: State, i: nat) returns (s1: State, s2: State, s3: State)
    requires Shaped(c, s) && i < |c.session| && s.owner.None? && s.pcs[i] == Outside
    requires s.sessions[c.session[i]] == FRESH
    requires Reading(s.current, c.selection[c.session[i]]) == c.policy[c.session[i]]
    ensures Shaped(c, s1) && Enabled(c, s, Lock(i)) && s1 == Next(c, s, Lock(i))
    ensures Shaped(c, s2) && Enabled(c, s1, AuthOk(i)) && s2 == Next(c, s1, AuthOk(i))
    ensures Shaped(c, s3) && Enabled(c, s2, SignOk(i)) && s3 == Next(c, s2, SignOk(i))
    ensures Enabled(c, s3, Unlock(i)) && s == Next(c, s3, Unlock(i))
  {
    s1 := Next(c, s, Lock(i));
    s2 := Next(c, s1, AuthOk(i));
    assert s2.sessions[c.session[i]] == PolicySession([c.policy[c.session[i]]], false);
    s3 := Next(c, s2, SignOk(i));
    assert s3.sessions == s.sessions && Next(c, s3, Unlock(i)).pcs == s.pcs;
  }

  /** The other direction: with the mutex free, the right PCR values and no earlier failure, an undisturbed call
      signs and leaves everything as it was. */
  lemma UndisturbedSign(c: Config, start: Values, run: seq<Step>, i: nat)
    requires ValidConfig(c) && After(c, start, run).Some? && After(c, start, run).value.owner.None? && i < |c.session|
    requires c.session[i] !in Failed(c, run)
    requires Reading(After(c, start, run).value.current, c.selection[c.session[i]]) == c.policy[c.session[i]]
    ensures After(c, start, run + [Lock(i)] + [AuthOk(i)] + [SignOk(i)] + [Unlock(i)]) == After(c, start, run)
  {
    var s := After(c, start, run).value;
    assert s.sessions[c.session[i]] == FRESH && s.pcs[i] == Outside by {
      RunInvariant(c, start, run);
    }
    var s1, s2, s3 := SignRound(c, s, i);
    AfterSnoc(c, start, run, Lock(i));
    AfterSnoc(c, start, run + [Lock(i)], AuthOk(i));
    AfterSnoc(c, start, run + [Lock(i)] + [AuthOk(i)], SignOk(i));
    AfterSnoc(c, start, run + [Lock(i)] + [AuthOk(i)] + [SignOk(i)], Unlock(i));
  }

  /** A failed signing command is possible, for every key, and leaves its reading behind when the mutex is free
      again. */
  lemma FailedSign(c: Config, start: Values, i: nat)
    requires ValidConfig(c) && i < |c.session|
    ensures var s := After(c, start, [Lock(i)] + [AuthOk(i)] + [SignFail(i)] + [Unlock(i)]);
            && s.Some? && s.value.owner.None?
            && s.value.sessions[c.session[i]].ext == [Reading(start, c.selection[c.session[i]])]
  {
    var none: seq<Step> := [];
    assert none + [Lock(i)] == [Lock(i)];
    AfterSnoc(c, start, none, Lock(i));
    AfterSnoc(c, start, [Lock(i)], AuthOk(i));
    AfterSnoc(c, start, [Lock(i)] + [AuthOk(i)], SignFail(i));
    AfterSnoc(c, start, [Lock(i)] + [AuthOk(i)] + [SignFail(i)], Unlock(i));
  }
}
