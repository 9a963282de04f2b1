/** The simulator's TPM clock: a rate-adjusted timer over the real clock. */
module Clock {

  const NOMINAL: int := 30000
  const COARSE: int := 300
  const MEDIUM: int := 30
  const FINE: int := 1
  const LIMIT: int := 5000

  const TWO_64: int := 0x1_0000_0000_0000_0000

  /** Real-time readings below this bound cannot overflow the products in `TimerRead`. */
  const MAX_REAL: int := TWO_64 / NOMINAL

  predicate RateOk(rate: int) {
    NOMINAL - LIMIT <= rate <= NOMINAL + LIMIT
  }

  datatype State = State(rate: int, realPrevious: int, tpmTime: int, lastSystem: int, lastReported: int, wasReset: bool)

  // ----- The timer without machine integers

  /** Real time not yet turned into TPM time is turned into `Advance` ms of it ... */
  function Advance(diff: int, rate: int): int
    requires rate > 0
  {
    diff * NOMINAL / rate
  }

  /** ... which use up `PutBack` ms of real time. */
  function PutBack(diff: int, rate: int): int
    requires rate > 0
  {
    Advance(diff, rate) * rate / NOMINAL
  }

  /** The real time since the first read after a reset, as of a read at `now`. */
  function Reported(s: State, now: int): int {
    if s.lastSystem == 0 then 0 else s.lastReported + now - s.lastSystem
  }

  function Previous(s: State): int {
    if s.lastSystem == 0 then 0 else s.realPrevious
  }

  function Read(s: State, now: int): State
    requires s.rate > 0
  {
    var diff := Reported(s, now) - Previous(s);
    if diff <= 0 then s.(lastSystem := now, lastReported := Reported(s, now), realPrevious := Previous(s))
    else s.(lastSystem := now, lastReported := Reported(s, now),
            realPrevious := Previous(s) + PutBack(diff, s.rate), tpmTime := s.tpmTime + Advance(diff, s.rate))
  }

  function Reset(s: State): State {
    s.(lastSystem := 0, tpmTime := 0, rate := NOMINAL, wasReset := true)
  }

  predicate Amount(k: int) {
    k == COARSE || k == -COARSE || k == MEDIUM || k == -MEDIUM || k == FINE || k == -FINE
  }

  function Adjust(s: State, k: int): State {
    var r := if Amount(k) then s.rate + k else s.rate;
    s.(rate := if r > NOMINAL + LIMIT then NOMINAL + LIMIT else if r < NOMINAL - LIMIT then NOMINAL - LIMIT else r)
  }

  /** The six known amounts move the rate by themselves, as far as 25000 and 35000, and can be undone there; nothing else
      changes. */
  lemma AdjustExact(s: State, k: int)
    requires 25000 <= s.rate <= 35000
    ensures var known := k == 300 || k == -300 || k == 30 || k == -30 || k == 1 || k == -1;
            && Adjust(s, k).(rate := s.rate) == s
            && (!known ==> Adjust(s, k) == s)
            && (known && 25000 <= s.rate + k <= 35000 ==>
                  Adjust(s, k).rate - s.rate == k && Adjust(Adjust(s, k), -k) == s)
            && (known && s.rate + k > 35000 ==> Adjust(s, k).rate == 35000)
            && (known && s.rate + k < 25000 ==> Adjust(s, k).rate == 25000)
  {
  }

  // ----- Division facts

  lemma DivisionStep(n: int, d: int)
    requires d > 0
    ensures n == n / d * d + n % d && 0 <= n % d < d
  {
  }

  /** One updating read: what is used up, weighted by the rate, and what is left over. */
  lemma StepBounds(diff: int, rate: int)
    requires diff > 0 && RateOk(rate)
    ensures 0 <= Advance(diff, rate)
    ensures 0 <= PutBack(diff, rate) <= diff
    ensures NOMINAL * PutBack(diff, rate) <= rate * Advance(diff, rate) <= NOMINAL * PutBack(diff, rate) + (NOMINAL - 1)
    ensures diff - PutBack(diff, rate) <= 2
    ensures rate <= NOMINAL + 1 ==> diff - PutBack(diff, rate) <= 1
  {
    var adv := Advance(diff, rate);
    DivisionStep(diff * NOMINAL, rate);
    var product := adv * rate;
    assert product == diff * NOMINAL - diff * NOMINAL % rate;
    DivisionStep(product, NOMINAL);
  }

  /** How much real time a read leaves over, exactly. */
  lemma Leftover(diff: int, rate: int)
    requires diff > 0 && RateOk(rate)
    ensures var rem := diff * NOMINAL % rate;
            diff - PutBack(diff, rate) == if rem == 0 then 0 else if rem <= NOMINAL then 1 else 2
  {
    StepBounds(diff, rate);
    DivisionStep(diff * NOMINAL, rate);
    var product := Advance(diff, rate) * rate;
    DivisionStep(product, NOMINAL);
    assert product == diff * NOMINAL - diff * NOMINAL % rate;
  }

  // ----- Every run

  datatype Op = DoRead(now: nat) | DoAdjust(k: int) | DoReset

  /** What has happened since the last reset, kept beside the state. */
  datatype Tally = Tally(start: int, updates: nat, weighted: int)

  datatype Run = Run(s: State, t: Tally)

  ghost function Apply(r: Run, op: Op): Run
    requires r.s.rate > 0
  {
    match op
    case DoReset => Run(Reset(r.s), Tally(0, 0, 0))
    case DoAdjust(k) => Run(Adjust(r.s, k), r.t)
    case DoRead(now) =>
      var s' := Read(r.s, now);
      var start := if r.s.lastSystem == 0 then now else r.t.start;
      if Reported(r.s, now) > Previous(r.s)
      then Run(s', Tally(start, r.t.updates + 1, r.t.weighted + r.s.rate * (s'.tpmTime - r.s.tpmTime)))
      else Run(s', r.t.(start := start))
  }

  /** The real clock never runs backwards between resets. */
  ghost predicate Monotone(r: Run, op: Op) {
    op.DoRead? ==> op.now >= r.s.lastSystem
  }

  ghost predicate Invariant(r: Run) {
    && RateOk(r.s.rate)
    && 0 <= r.s.lastSystem && 0 <= Previous(r.s) && 0 <= r.s.tpmTime
    && (r.s.lastSystem == 0 ==> r.s.tpmTime == 0 && r.t.updates == 0 && r.t.weighted == 0)
    && NOMINAL * Previous(r.s) <= r.t.weighted <= NOMINAL * Previous(r.s) + (NOMINAL - 1) * r.t.updates
    && (NOMINAL - LIMIT) * r.s.tpmTime <= r.t.weighted <= (NOMINAL + LIMIT) * r.s.tpmTime
    && (r.s.lastSystem != 0 ==>
          && r.t.start >= 0
          && r.s.lastReported == r.s.lastSystem - r.t.start
          && r.s.realPrevious <= r.s.lastReported <= r.s.realPrevious + 2)
  }

  lemma RateBounds(rate: int, adv: int)
    requires RateOk(rate) && adv >= 0
    ensures (NOMINAL - LIMIT) * adv <= rate * adv <= (NOMINAL + LIMIT) * adv
  {
  }

  lemma InvariantStep(r: Run, op: Op)
    requires Invariant(r) && Monotone(r, op)
    ensures Invariant(Apply(r, op))
  {
    if op.DoRead? {
      var diff := Reported(r.s, op.now) - Previous(r.s);
      if diff > 0 {
        StepBounds(diff, r.s.rate);
        RateBounds(r.s.rate, Advance(diff, r.s.rate));
        var r' := Apply(r, op);
        assert r'.s.tpmTime - r.s.tpmTime == Advance(diff, r.s.rate);
        assert r'.t.weighted == r.t.weighted + r.s.rate * Advance(diff, r.s.rate);
      }
    }
  }

  ghost function RunAll(r: Run, ops: seq<Op>): Run
    requires r.s.rate > 0
    ensures RunAll(r, ops).s.rate > 0
  {
    if ops == [] then r else Apply(RunAll(r, ops[..|ops| - 1]), ops[|ops| - 1])
  }

  /** The real clock is monotone throughout a run. */
  ghost predicate MonotoneRun(r: Run, ops: seq<Op>)
    requires r.s.rate > 0
  {
    ops == [] || (MonotoneRun(r, ops[..|ops| - 1]) && Monotone(RunAll(r, ops[..|ops| - 1]), ops[|ops| - 1]))
  }

  const START := Run(State(NOMINAL, 0, 0, 0, 0, true), Tally(0, 0, 0))

  lemma {:induction false} InvariantRun(ops: seq<Op>)
    requires MonotoneRun(START, ops)
    ensures Invariant(RunAll(START, ops))
  {
    if ops != [] {
      InvariantRun(ops[..|ops| - 1]);
      InvariantStep(RunAll(START, ops[..|ops| - 1]), ops[|ops| - 1]);
    }
  }

  /** For every interleaving of resets, rate changes and reads: TPM time against the real time that has
      passed since the first read, off by the rate's limits and by at most one tick per updating read. */
  lemma CumulativeError(ops: seq<Op>)
    requires MonotoneRun(START, ops)
    ensures var r := RunAll(START, ops);
            && RateOk(r.s.rate)
            && NOMINAL * Previous(r.s) <= r.t.weighted <= NOMINAL * Previous(r.s) + (NOMINAL - 1) * r.t.updates
            && (r.s.lastSystem != 0 ==>
                  var elapsed := r.s.lastSystem - r.t.start;
                  && 0 <= elapsed - r.s.realPrevious <= 2
                  && NOMINAL * (elapsed - 2) <= (NOMINAL + LIMIT) * r.s.tpmTime
                  && (NOMINAL - LIMIT) * r.s.tpmTime <= NOMINAL * elapsed + (NOMINAL - 1) * r.t.updates)
  {
    InvariantRun(ops);
  }

  lemma StepNeverDecreases(r: Run, op: Op)
    requires Invariant(r) && Monotone(r, op) && !op.DoReset?
    ensures Apply(r, op).s.tpmTime >= r.s.tpmTime
  {
    if op.DoRead? {
      var diff := Reported(r.s, op.now) - Previous(r.s);
      if diff > 0 {
        StepBounds(diff, r.s.rate);
      }
    }
  }

  /** In every run, TPM time never decreases over a stretch without reset. */
  lemma {:induction false} NeverDecreases(ops: seq<Op>, more: seq<Op>)
    requires MonotoneRun(START, ops + more) && forall i | 0 <= i < |more| :: !more[i].DoReset?
    ensures RunAll(START, ops + more).s.tpmTime >= RunAll(START, ops).s.tpmTime
  {
    if more == [] {
      assert ops + more == ops;
    } else {
      var front, last := more[..|more| - 1], more[|more| - 1];
      assert (ops + more)[..|ops + more| - 1] == ops + front && (ops + more)[|ops + more| - 1] == last;
      NeverDecreases(ops, front);
      InvariantRun(ops + front);
      StepNeverDecreases(RunAll(START, ops + front), last);
    }
  }

  /** After any read at most 2 ms of real time is held back, and at most 1 ms up to rate 30001. */
  lemma ReadLeavesLittle(r: Run, now: nat)
    requires Invariant(r) && Monotone(r, DoRead(now))
    ensures var s := Read(r.s, now);
            && 0 <= s.lastReported - s.realPrevious <= 2
            && (r.s.rate <= NOMINAL + 1 ==> s.lastReported - s.realPrevious <= 1)
  {
    var diff := Reported(r.s, now) - Previous(r.s);
    if diff > 0 {
      StepBounds(diff, r.s.rate);
    }
  }

  // ----- Reading again at the same instant

  lemma SmallQuotient(n: int, d: int)
    requires 0 <= n < 2 * d
    ensures n / d == if n < d then 0 else 1
  {
    DivisionStep(n, d);
    assert 0 <= n / d < 2;
  }

  /** Reading 1 ms or 2 ms of real time. */
  lemma SmallReads(rate: int)
    requires RateOk(rate)
    ensures Advance(1, rate) == if rate > NOMINAL then 0 else 1
    ensures PutBack(1, rate) == if rate == NOMINAL then 1 else 0
    ensures rate > NOMINAL ==> Advance(2, rate) == 1 && PutBack(2, rate) == 1
  {
    SmallQuotient(NOMINAL, rate);
    SmallQuotient(0, NOMINAL);
    SmallQuotient(rate, NOMINAL);
    assert Advance(1, rate) == NOMINAL / rate;
    if rate > NOMINAL {
      SmallQuotient(2 * NOMINAL, rate);
      assert Advance(2, rate) == 2 * NOMINAL / rate;
    }
  }

  function Reads(s: State, now: int, k: nat): (s': State)
    requires RateOk(s.rate)
    ensures s'.rate == s.rate
  {
    if k == 0 then s else Read(Reads(s, now, k - 1), now)
  }

  /** A state just read at `now`, with some real time left over. */
  predicate JustRead(s: State, now: int, left: int) {
    s.lastSystem == now > 0 && s.lastReported - s.realPrevious == left
  }

  lemma ReadAgain(s: State, now: int, left: int)
    requires RateOk(s.rate) && JustRead(s, now, left) && left >= 0
    ensures left == 0 ==> Read(s, now) == s
    ensures left > 0 ==>
              Read(s, now) == s.(realPrevious := s.realPrevious + PutBack(left, s.rate),
                                 tpmTime := s.tpmTime + Advance(left, s.rate))
  {
  }

  /** `k` more reads at the same instant, when the rate is below nominal and some real time is left over. */
  lemma {:induction false} GrowingReads(s: State, now: int, k: nat)
    requires RateOk(s.rate) && s.rate < NOMINAL && JustRead(s, now, 1)
    ensures Reads(s, now, k) == s.(tpmTime := s.tpmTime + k)
  {
    if k > 0 {
      GrowingReads(s, now, k - 1);
      ReadAgain(Reads(s, now, k - 1), now, 1);
      SmallReads(s.rate);
    }
  }

  /** Reads that change nothing. */
  lemma {:induction false} SettledReads(s: State, now: int, k: nat, left: int)
    requires RateOk(s.rate) && JustRead(s, now, left) && (left == 0 || (left == 1 && s.rate > NOMINAL))
    ensures Reads(s, now, k) == s
  {
    if k > 0 {
      SettledReads(s, now, k - 1, left);
      ReadAgain(s, now, left);
      SmallReads(s.rate);
    }
  }

  lemma {:induction false} FirstReadFirst(s: State, now: int, k: nat)
    requires RateOk(s.rate)
    ensures Reads(s, now, k + 1) == Reads(Read(s, now), now, k)
  {
    if k == 0 {
      assert Reads(s, now, 0) == s;
    } else {
      FirstReadFirst(s, now, k - 1);
    }
  }

  /** What `k` reads add after a first one at the same instant, exactly, for every state: nothing if the first one left
      nothing over; one tick each, without bound, below the nominal rate; and above it one tick in all if more than a
      nominal millisecond was left over, and otherwise nothing. */
  lemma RepeatedReads(s: State, now: int, k: nat)
    requires RateOk(s.rate) && s.lastSystem > 0 && now > 0 && Reported(s, now) > Previous(s)
    ensures var rem := (Reported(s, now) - Previous(s)) * NOMINAL % s.rate;
            Reads(Read(s, now), now, k).tpmTime - Read(s, now).tpmTime
            == if rem == 0 then 0 else if s.rate < NOMINAL then k else if rem > NOMINAL && k > 0 then 1 else 0
  {
    var diff := Reported(s, now) - Previous(s);
    var s1 := Read(s, now);
    Leftover(diff, s.rate);
    DivisionStep(diff * NOMINAL, s.rate);
    var left := diff - PutBack(diff, s.rate);
    assert JustRead(s1, now, left);
    if left == 1 && s.rate < NOMINAL {
      GrowingReads(s1, now, k);
    } else if left < 2 {
      SettledReads(s1, now, k, left);
    } else if k > 0 {
      ReadAgain(s1, now, 2);
      SmallReads(s.rate);
      FirstReadFirst(s1, now, k - 1);
      SettledReads(Read(s1, now), now, k - 1, 1);
    }
  }

  /** A second read at the same instant leaves TPM time alone exactly when the first one left over
      less real time than one tick of TPM time. */
  lemma RepeatedReadStable(s: State, now: int)
    requires RateOk(s.rate) && s.lastSystem > 0 && now > 0 && Reported(s, now) > Previous(s)
    ensures var rem := (Reported(s, now) - Previous(s)) * NOMINAL % s.rate;
            Read(Read(s, now), now).tpmTime == Read(s, now).tpmTime
            <==> rem == 0 || (s.rate > NOMINAL && rem <= NOMINAL)
  {
    RepeatedReads(s, now, 1);
    assert Reads(Read(s, now), now, 0) == Read(s, now);
    DivisionStep((Reported(s, now) - Previous(s)) * NOMINAL, s.rate);
    assert s.rate == NOMINAL ==> (Reported(s, now) - Previous(s)) * NOMINAL % s.rate == 0;
  }

  ghost function Repeat(op: Op, n: nat): (ops: seq<Op>)
    ensures |ops| == n
  {
    if n == 0 then [] else Repeat(op, n - 1) + [op]
  }

  lemma RunSnoc(ops: seq<Op>, op: Op)
    requires MonotoneRun(START, ops) && Monotone(RunAll(START, ops), op)
    ensures MonotoneRun(START, ops + [op]) && RunAll(START, ops + [op]) == Apply(RunAll(START, ops), op)
  {
    assert (ops + [op])[..|ops|] == ops;
  }

  lemma {:induction false} Slowing(n: nat)
    requires n <= 16
    ensures MonotoneRun(START, Repeat(DoAdjust(-COARSE), n))
    ensures RunAll(START, Repeat(DoAdjust(-COARSE), n)) == START.(s := START.s.(rate := NOMINAL - COARSE * n))
  {
    if n > 0 {
      Slowing(n - 1);
      RunSnoc(Repeat(DoAdjust(-COARSE), n - 1), DoAdjust(-COARSE));
    }
  }

  /** Seventeen coarse adjustments, and a first read. */
  ghost function SlowStart(): seq<Op> {
    Repeat(DoAdjust(-COARSE), 16) + [DoAdjust(-COARSE)] + [DoRead(1000)]
  }

  lemma SlowStartRuns()
    ensures MonotoneRun(START, SlowStart())
    ensures RunAll(START, SlowStart()) == Run(State(NOMINAL - LIMIT, 0, 0, 1000, 0, true), Tally(1000, 0, 0))
  {
    Slowing(16);
    var ops := Repeat(DoAdjust(-COARSE), 16);
    RunSnoc(ops, DoAdjust(-COARSE));
    RunSnoc(ops + [DoAdjust(-COARSE)], DoRead(1000));
  }

  /** The growth is reachable: one millisecond after the first read, any number of reads at that instant add a
      millisecond of TPM time each. */
  lemma {:induction false} TimeWithoutTime(k: nat)
    ensures MonotoneRun(START, SlowStart() + Repeat(DoRead(1001), k))
    ensures var r := RunAll(START, SlowStart() + Repeat(DoRead(1001), k));
            && r.s == State(NOMINAL - LIMIT, 0, k, if k == 0 then 1000 else 1001, if k == 0 then 0 else 1, true)
            && r.t.start == 1000
  {
    if k == 0 {
      SlowStartRuns();
      assert SlowStart() + Repeat(DoRead(1001), 0) == SlowStart();
    } else {
      TimeWithoutTime(k - 1);
      var ops := SlowStart() + Repeat(DoRead(1001), k - 1);
      RunSnoc(ops, DoRead(1001));
      SmallReads(NOMINAL - LIMIT);
      assert SlowStart() + Repeat(DoRead(1001), k) == ops + [DoRead(1001)];
    }
  }

  // ----- The timer in machine integers

  function U64(x: int): int {
    x % TWO_64
  }

  function U32(x: int): int {
    x % 0x1_0000_0000
  }

  /** Enough updating reads for any run; more could carry TPM time past 64 bits. */
  const MAX_UPDATES: int := TWO_64 / 2

  /** The platform's global variables. */
  class Timer {
    var adjustRate: int
    var realTimePrevious: int
    var tpmTime: int
    var lastSystemTime: int
    var lastReportedTime: int
    var timerReset: bool
    ghost var tally: Tally

    ghost function Abs(): Run
      reads this
    {
      Run(State(adjustRate, realTimePrevious, tpmTime, lastSystemTime, lastReportedTime, timerReset), tally)
    }

    ghost predicate Valid()
      reads this
    {
      Invariant(Abs()) && lastSystemTime < MAX_REAL
    }

    /** Establishes the invariant from any contents of the globals. */
    method TimerReset()
      modifies this
      ensures Valid()
      ensures Abs() == Run(Reset(old(Abs()).s), Tally(0, 0, 0))
      ensures tpmTime == 0 && adjustRate == 30000 && timerReset
    {
      lastSystemTime := 0;
      tpmTime := 0;
      adjustRate := NOMINAL;
      timerReset := true;
      tally := Tally(0, 0, 0);
    }

    method TimerWasReset() returns (r: bool)
      requires Valid()
      modifies this`timerReset
      ensures Valid()
      ensures r == old(timerReset) && !timerReset
    {
      r := timerReset;
      timerReset := false;
    }

    /** First half of a read: the reported real time, which never goes backwards. */
    method SampleRealTime(realTime: nat)
      requires Valid()
      requires lastSystemTime <= realTime < MAX_REAL
      modifies this`lastSystemTime, this`lastReportedTime, this`realTimePrevious
      ensures lastSystemTime == realTime
      ensures lastReportedTime == Reported(old(Abs()).s, realTime)
      ensures realTimePrevious == Previous(old(Abs()).s)
      ensures 0 <= realTimePrevious <= lastReportedTime < MAX_REAL
    {
      var timeNow := realTime;
      if lastSystemTime == 0 {
        lastSystemTime := timeNow;
        lastReportedTime := 0;
        realTimePrevious := 0;
      }
      var base := if timeNow < lastReportedTime then timeNow else lastSystemTime;
      U64Fits(lastReportedTime + timeNow - base);
      lastReportedTime := U64(lastReportedTime + timeNow - base);
      lastSystemTime := timeNow;
    }

    /** Second half: converts the real time not yet accounted for. */
    method Convert() returns (time: int)
      requires RateOk(adjustRate) && 0 <= realTimePrevious <= lastReportedTime
      requires lastReportedTime > realTimePrevious ==>
                 Fits(lastReportedTime - realTimePrevious, adjustRate, tpmTime, realTimePrevious)
      modifies this`tpmTime, this`realTimePrevious
      ensures time == tpmTime
      ensures var diff := old(lastReportedTime - realTimePrevious);
              && tpmTime == old(tpmTime) + (if diff <= 0 then 0 else Advance(diff, adjustRate))
              && realTimePrevious == old(realTimePrevious) + (if diff <= 0 then 0 else PutBack(diff, adjustRate))
    {
      var timeNow := lastReportedTime;
      if realTimePrevious >= timeNow {
        return tpmTime;
      }
      NoWrap(timeNow - realTimePrevious, adjustRate, tpmTime, realTimePrevious);
      var timeDiff := U64(timeNow - realTimePrevious);
      var adjustedTimeDiff := U64(timeDiff * NOMINAL) / adjustRate;
      tpmTime := U64(tpmTime + adjustedTimeDiff);
      var readjustedTimeDiff := U64(adjustedTimeDiff * adjustRate) / NOMINAL;
      realTimePrevious := U64(realTimePrevious + readjustedTimeDiff);
      return tpmTime;
    }

    /** The machine arithmetic never wraps: the read is the ideal one. */
    method TimerRead(realTime: nat) returns (time: int)
      requires Valid()
      requires lastSystemTime <= realTime < MAX_REAL
      requires tally.updates < MAX_UPDATES
      modifies this
      ensures Valid()
      ensures Abs() == Apply(old(Abs()), DoRead(realTime))
      ensures time == tpmTime && old(tpmTime) <= tpmTime
    {
      InvariantStep(Abs(), DoRead(realTime));
      if Reported(Abs().s, realTime) > Previous(Abs().s) {
        NoOverflow(Abs(), realTime);
      }
      SampleRealTime(realTime);
      time := Convert();
      tally := Apply(old(Abs()), DoRead(realTime)).t;
    }

    method ClockAdjustRate(adjust: int)
      requires Valid()
      modifies this
      ensures Valid()
      ensures Abs() == Apply(old(Abs()), DoAdjust(adjust))
      ensures adjust == 300 || adjust == 30 || adjust == 1 ==>
                adjustRate == if old(adjustRate) + adjust > 35000 then 35000 else old(adjustRate) + adjust
      ensures adjust == -300 || adjust == -30 || adjust == -1 ==>
                adjustRate == if old(adjustRate) + adjust < 25000 then 25000 else old(adjustRate) + adjust
    {
      InvariantStep(Abs(), DoAdjust(adjust));
      if || adjust == COARSE || adjust == -COARSE || adjust == MEDIUM || adjust == -MEDIUM
         || adjust == FINE || adjust == -FINE {
        U32Fits(adjustRate + adjust);
        adjustRate := U32(adjustRate + adjust);
      }
      if adjustRate > NOMINAL + LIMIT {
        adjustRate := NOMINAL + LIMIT;
      }
      if adjustRate < NOMINAL - LIMIT {
        adjustRate := NOMINAL - LIMIT;
      }
    }
  }

  lemma U32Fits(x: int)
    ensures 0 <= x < 0x1_0000_0000 ==> U32(x) == x
  {
  }

  lemma U64Fits(x: int)
    ensures 0 <= x < TWO_64 ==> U64(x) == x
  {
  }

  /** The products and sums of an updating read all fit in 64 bits. */
  ghost predicate Fits(diff: int, rate: int, tpmTime: int, realPrevious: int)
    requires rate > 0
  {
    && 0 <= diff && diff * NOMINAL < TWO_64
    && 0 <= Advance(diff, rate) && 0 <= Advance(diff, rate) * rate < TWO_64
    && 0 <= tpmTime && tpmTime + Advance(diff, rate) < TWO_64
    && 0 <= PutBack(diff, rate) && 0 <= realPrevious && realPrevious + PutBack(diff, rate) < TWO_64
  }

  /** So none of the machine operations of an updating read wraps. */
  lemma NoWrap(diff: int, rate: int, tpmTime: int, realPrevious: int)
    requires rate > 0 && Fits(diff, rate, tpmTime, realPrevious)
    ensures U64(diff) == diff
    ensures U64(diff * NOMINAL) / rate == Advance(diff, rate)
    ensures U64(tpmTime + Advance(diff, rate)) == tpmTime + Advance(diff, rate)
    ensures U64(Advance(diff, rate) * rate) / NOMINAL == PutBack(diff, rate)
    ensures U64(realPrevious + PutBack(diff, rate)) == realPrevious + PutBack(diff, rate)
  {
    U64Fits(diff);
    U64Fits(diff * NOMINAL);
    U64Fits(tpmTime + Advance(diff, rate));
    U64Fits(Advance(diff, rate) * rate);
    U64Fits(realPrevious + PutBack(diff, rate));
  }

  lemma NoOverflow(r: Run, now: int)
    requires Invariant(r) && r.s.lastSystem <= now < MAX_REAL && r.t.updates < MAX_UPDATES
    requires Reported(r.s, now) > Previous(r.s)
    ensures Fits(Reported(r.s, now) - Previous(r.s), r.s.rate, r.s.tpmTime, Previous(r.s))
  {
    var diff := Reported(r.s, now) - Previous(r.s);
    StepBounds(diff, r.s.rate);
    RateBounds(r.s.rate, Advance(diff, r.s.rate));
    DivisionStep(diff * NOMINAL, r.s.rate);
  }
}
