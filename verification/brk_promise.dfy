// What setup(), the stored step and the walk give together: the range of the
// break, the sign of what is handed to brk(2), and the MAX_SIZE_LC promise.
module BrkPromise {
  import opened Arithmetic
  import opened BrkSetup
  import opened BrkWalk
  import opened BrkResults

  // The plan main() walks with between two given breaks.
  function StoredPlan(beg: nat, max: nat): Plan
    requires beg <= max
  {
    Plan(beg, max, Step(max - beg))
  }

  // The plan that setup() and the step computation lead to.
  function ProgramPlan(ulim: nat, mem: nat, ncpus: nat, beg: nat): Plan
    requires 1 <= ncpus
  {
    StoredPlan(beg, Ceiling(ulim, mem, ncpus, beg))
  }

  // The sum iteration lc forms from the current break fits a `long`.
  predicate SumFits(w: LongWidth, incr: int, lc: nat, cur: int) {
    InLong(w, if lc == 3 then cur else if lc % 2 == 0 then cur + 2 * incr else cur - incr)
  }

  // -------------------------------------------------------------------- range

  function SuccessfulBreak(p: Plan, n: nat): int {
    BreakAt(p, seq(n, _ => true), n)
  }

  lemma SuccessfulBreakIsClosed(p: Plan, n: nat)
    requires p.beg <= p.max
    ensures SuccessfulBreak(p, n) == ClosedBreak(p, n)
  {
    BreakIsClosed(p, seq(n, _ => true), n);
  }

  // After an even iteration the break is in [beg, max]; after an odd one it can
  // be one step lower, and no lower.
  lemma RangeWithoutFailures(p: Plan, n: nat)
    requires p.Rising()
    ensures SuccessfulBreak(p, n) <= p.max
    ensures SuccessfulBreak(p, n) >= if n % 2 == 1 then p.beg else p.beg - p.incr
  {
    var oks := seq(n, _ => true);
    WalkWithFailures(p, oks, n);
    NoFailedGrows(oks, n);
  }

  lemma TopInBytes(p: Plan, k: int)
    requires p.Rising()
    ensures p.beg + k * p.incr <= p.max <==> k <= p.Top()
    ensures p.beg + k * p.incr > p.max - p.incr <==> k >= p.Top()
  {
    MultipleFits(k, p.incr, p.max - p.beg);
    MultipleFits(k + 1, p.incr, p.max - p.beg);
    assert (k + 1) * p.incr == k * p.incr + p.incr;
  }

  // The largest sum a run without failures forms.
  function HighestSum(p: Plan): int
    requires p.Rising()
  {
    p.beg + HighestTry(p.Top()) * p.incr
  }

  lemma HighestSumBounds(p: Plan)
    requires p.Rising()
    ensures p.max < HighestSum(p) <= p.max + 2 * p.incr
    ensures p.beg + 2 * p.incr <= HighestSum(p)
  {
    var top := p.Top();
    TopInBytes(p, top);
    TopInBytes(p, top + 1);
    MultiplesOrdered(top + 1, HighestTry(top), p.incr);
    MultiplesOrdered(HighestTry(top), top + 2, p.incr);
    MultiplesOrdered(2, HighestTry(top), p.incr);
    assert (top + 2) * p.incr == top * p.incr + 2 * p.incr;
  }

  lemma GrowSum(p: Plan, n: nat)
    requires p.Rising() && n % 2 == 0
    ensures SuccessfulBreak(p, n) + 2 * p.incr <= HighestSum(p)
    ensures n == HighestTryAt(p.Top()) ==> SuccessfulBreak(p, n) + 2 * p.incr == HighestSum(p)
  {
    var k := ClosedIndex(p.Top(), n);
    SuccessfulBreakIsClosed(p, n);
    HighestTryIsHighest(p.Top(), n);
    MultiplesOrdered(k + 2, HighestTry(p.Top()), p.incr);
    assert (k + 2) * p.incr == k * p.incr + 2 * p.incr;
  }

  // Every sum of a run without failures fits a `long` exactly when the largest
  // one does.
  lemma SumsFitIff(w: LongWidth, p: Plan)
    requires p.Rising() && 0 <= p.beg
    ensures (forall n: nat :: SumFits(w, p.incr, n, SuccessfulBreak(p, n))) <==> HighestSum(p) <= LongMax(w)
  {
    HighestSumBounds(p);
    var at := HighestTryAt(p.Top());
    GrowSum(p, at);
    if HighestSum(p) <= LongMax(w) {
      forall n: nat
        ensures SumFits(w, p.incr, n, SuccessfulBreak(p, n))
      {
        RangeWithoutFailures(p, n);
        if n % 2 == 0 {
          GrowSum(p, n);
        }
      }
    } else {
      assert !SumFits(w, p.incr, at, SuccessfulBreak(p, at));
    }
  }

  // ------------------------------------------------------- negative requests

  lemma {:induction false} ZeroStepStays(p: Plan, oks: seq<bool>, n: nat)
    requires p.beg <= p.max && p.incr == 0 && n <= |oks|
    ensures BreakAt(p, oks, n) == p.beg
  {
    if n > 0 {
      ZeroStepStays(p, oks, n - 1);
    }
  }

  lemma RequestAboveFloor(p: Plan, oks: seq<bool>, n: nat, f: nat)
    requires p.Rising() && n <= |oks| && FailedGrows(oks, n) <= f
    ensures Request(p, n, BreakAt(p, oks, n)) >= p.beg - (1 + f) * p.incr
  {
    WalkWithFailures(p, oks, n);
    MultiplesOrdered(FailedGrows(oks, n), f, p.incr);
    assert (1 + f) * p.incr == f * p.incr + p.incr;
    assert (1 + FailedGrows(oks, n)) * p.incr == FailedGrows(oks, n) * p.incr + p.incr;
    MultiplesOrdered(0, f, p.incr);
  }

  // With a negative step a run without failures has asked for a negative break
  // by the even iteration `last` exactly when last / 2 + 3 steps pass below zero.
  lemma DescentNegativeIff(p: Plan, last: nat)
    requires 0 <= p.beg <= p.max && p.incr < 0
    requires 4 <= last && last % 2 == 0
    ensures (exists n: nat | n <= last :: Request(p, n, SuccessfulBreak(p, n)) < 0)
       <==> p.beg + (last / 2 + 3) * p.incr < 0
  {
    forall n: nat | n <= last
      ensures Request(p, n, SuccessfulBreak(p, n)) == p.beg + DescendingIndex(n + 1) * p.incr
      ensures DescendingIndex(n + 1) * p.incr >= (last / 2 + 3) * p.incr
    {
      SuccessfulBreakIsClosed(p, n);
      DescendingStep(p, n);
      DescendingDepth(last, n);
      NonPositiveMultiple(last / 2 + 3 - DescendingIndex(n + 1), p.incr);
      assert (last / 2 + 3 - DescendingIndex(n + 1)) * p.incr
          == (last / 2 + 3) * p.incr - DescendingIndex(n + 1) * p.incr;
    }
    DescendingDepth(last, last);
    assert Request(p, last, SuccessfulBreak(p, last)) == p.beg + (last / 2 + 3) * p.incr;
  }

  lemma DescentGoesNegative(p: Plan) returns (n: nat)
    requires 0 <= p.beg <= p.max && p.incr < 0
    ensures Request(p, n, SuccessfulBreak(p, n)) < 0
  {
    var last := 2 * (p.beg + 4);
    NonPositiveMultiple(last / 2 + 3, p.incr);
    DescentNegativeIff(p, last);
    n :| n <= last && Request(p, n, SuccessfulBreak(p, n)) < 0;
  }

  lemma SlideRequest(p: Plan, f: nat)
    requires p.Rising()
    ensures var oks, n := SlidingRun(p.Top(), f), 2 * Phase(p.Top()) + 1 + 2 * f;
            FailedGrows(oks, n) == f && Request(p, n, BreakAt(p, oks, n)) == p.beg - (1 + f) * p.incr
  {
    var top := p.Top();
    var oks, n := SlidingRun(top, f), 2 * Phase(top) + 1 + 2 * f;
    SlideSteps(top, f, f);
    assert oks[n] && n % 2 == 1 && n != 3;
    assert Index(top, oks, n) == 0 - f;
    BreakIsIndex(p, oks, n);
    NegatedMultiple(f, p.incr);
    assert (1 + f) * p.incr == f * p.incr + p.incr;
  }

  // Over all runs with at most f failed grows so far, every value handed to
  // brk(2) is nonnegative exactly when the step is not negative and 1 + f of
  // them fit below the first break.
  lemma RequestsWithFailuresIff(p: Plan, f: nat)
    requires 0 <= p.beg <= p.max
    ensures (forall oks: seq<bool>, n: nat | n <= |oks| && FailedGrows(oks, n) <= f ::
               Request(p, n, BreakAt(p, oks, n)) >= 0)
       <==> 0 <= p.incr && (1 + f) * p.incr <= p.beg
  {
    if p.incr < 0 {
      var n := DescentGoesNegative(p);
      NoFailedGrows(seq(n, _ => true), n);
      assert Request(p, n, BreakAt(p, seq(n, _ => true), n)) < 0;
    } else if (1 + f) * p.incr > p.beg {
      SlideRequest(p, f);
    } else {
      forall oks: seq<bool>, n: nat | n <= |oks| && FailedGrows(oks, n) <= f
        ensures Request(p, n, BreakAt(p, oks, n)) >= 0
      {
        if p.incr == 0 {
          ZeroStepStays(p, oks, n);
        } else {
          RequestAboveFloor(p, oks, n, f);
        }
      }
    }
  }

  // Without failures every value handed to brk(2) is nonnegative exactly when
  // the step is between zero and the first break: the first shrink after a
  // start-over goes to beg - incr, and a negative step only descends.
  lemma RequestsNonNegativeIff(p: Plan)
    requires 0 <= p.beg <= p.max
    ensures (forall n: nat :: Request(p, n, SuccessfulBreak(p, n)) >= 0) <==> 0 <= p.incr <= p.beg
  {
    if p.incr < 0 {
      var _ := DescentGoesNegative(p);
    } else if p.incr > p.beg {
      var j := Phase(p.Top());
      FreshStartOver(p.Top(), seq(2 * j + 2, _ => true), j);
      ClosedForm(p.Top(), seq(2 * j + 2, _ => true), 2 * j + 1);
      SuccessfulBreakIsClosed(p, 2 * j + 1);
      assert Request(p, 2 * j + 1, SuccessfulBreak(p, 2 * j + 1)) == p.beg - p.incr;
    } else {
      forall n: nat
        ensures Request(p, n, SuccessfulBreak(p, n)) >= 0
      {
        if p.incr == 0 {
          ZeroStepStays(p, seq(n, _ => true), n);
        } else {
          RangeWithoutFailures(p, n);
        }
      }
    }
  }

  // A run without failures forms no sum that overflows a `long` and hands no
  // negative value to brk(2), and its step can be stored and doubled in an `int`.
  ghost predicate Sound(w: LongWidth, p: Plan)
    requires p.beg <= p.max
  {
    && DoubleFits(p.max - p.beg)
    && (forall n: nat :: SumFits(w, p.incr, n, SuccessfulBreak(p, n)))
    && (forall n: nat :: Request(p, n, SuccessfulBreak(p, n)) >= 0)
  }

  lemma SoundIff(w: LongWidth, p: Plan)
    requires 0 <= p.beg <= p.max && p.beg <= LongMax(w)
    ensures Sound(w, p) <==>
              && DoubleFits(p.max - p.beg)
              && 0 <= p.incr <= p.beg
              && (p.Rising() ==> HighestSum(p) <= LongMax(w))
  {
    RequestsNonNegativeIff(p);
    if p.Rising() {
      SumsFitIff(w, p);
    } else if p.incr == 0 {
      forall n: nat
        ensures SumFits(w, p.incr, n, SuccessfulBreak(p, n))
      {
        ZeroStepStays(p, seq(n, _ => true), n);
      }
    }
  }

  // The plan under the overriding ceiling.
  function OverridePlan(beg: nat): Plan {
    StoredPlan(beg, 4 * beg)
  }

  // Whole-program safety with the default memory size: whatever the limit and
  // the CPU count, a run without failures is sound, exactly when the first break
  // is at least SafeStart, and four times that break, twice the step stored for
  // the overriding ceiling and the largest sum below it fit their types, and that
  // step is not negative.
  lemma ProgramSafeIff(w: LongWidth, beg: nat)
    requires 4 * beg <= LongMax(w)
    ensures (forall ulim: nat, ncpus: nat | 1 <= ncpus ::
               Sound(w, ProgramPlan(ulim, DefaultMemory(w), ncpus, beg)))
       <==> && SafeStart(w) <= beg
            && DoubleFits(3 * beg)
            && 0 <= Step(3 * beg)
            && (0 < Step(3 * beg) ==> HighestSum(OverridePlan(beg)) <= LongMax(w))
  {
    hide Sound, SafeStart, DoubleFits, Step, HighestSum, DefaultMemory, Ceiling;
    var p0 := OverridePlan(beg);
    StepWithinStartIff(w, beg);
    CeilingCases(w, 0, 1, beg);
    assert ProgramPlan(0, DefaultMemory(w), 1, beg) == p0;
    assert p0.max - p0.beg == 3 * beg && (p0.Rising() <==> 0 < Step(3 * beg));
    SoundIff(w, p0);
    if forall ulim: nat, ncpus: nat | 1 <= ncpus :: Sound(w, ProgramPlan(ulim, DefaultMemory(w), ncpus, beg)) {
      forall ulim: nat, ncpus: nat | 1 <= ncpus
        ensures var d := Ceiling(ulim, DefaultMemory(w), ncpus, beg) - beg;
                DoubleFits(d) && 0 <= Step(d) <= beg
      {
        SoundIff(w, ProgramPlan(ulim, DefaultMemory(w), ncpus, beg));
      }
    } else if SafeStart(w) <= beg && DoubleFits(3 * beg) && 0 <= Step(3 * beg) {
      if Sound(w, p0) {
        forall ulim: nat, ncpus: nat | 1 <= ncpus
          ensures Sound(w, ProgramPlan(ulim, DefaultMemory(w), ncpus, beg))
        {
          SoundBelowOverride(w, ulim, ncpus, beg);
        }
      } else {
        StepWithinStart(w, 0, 1, beg);
      }
    }
  }

  lemma LowCeilingSum(p: Plan)
    requires 0 <= p.beg && p.max <= 2097152 && p.Rising() && p.incr == Step(p.max - p.beg)
    ensures HighestSum(p) <= LongMax(Ilp32) <= LongMax(Lp64)
  {
    hide HighestSum;
    KeptStepMeaning(p.max - p.beg);
    HighestSumBounds(p);
  }

  // Ceilings that are not the overriding one are low enough for every sum to
  // fit, so they are sound when the overriding one is.
  lemma SoundBelowOverride(w: LongWidth, ulim: nat, ncpus: nat, beg: nat)
    requires 1 <= ncpus && 4 * beg <= LongMax(w)
    requires SafeStart(w) <= beg && DoubleFits(3 * beg) && 0 <= Step(3 * beg)
    requires Sound(w, OverridePlan(beg))
    ensures Sound(w, ProgramPlan(ulim, DefaultMemory(w), ncpus, beg))
  {
    hide Sound, Ceiling, DefaultMemory, HighestSum, Step, DoubleFits, SafeStart;
    var p := ProgramPlan(ulim, DefaultMemory(w), ncpus, beg);
    CeilingCases(w, ulim, ncpus, beg);
    if p.max != 4 * beg {
      StepWithinStart(w, ulim, ncpus, beg);
      if p.Rising() {
        LowCeilingSum(p);
      }
      SoundIff(w, p);
    }
  }

  // A first break well above SafeStart whose step turns negative in an `int`:
  // iteration 278516 of a run without failures asks for a negative break.
  const PIE_BREAK: nat := 0x55d5b3a1e000

  lemma NarrowedStepAsksBelowZero(ulim: nat, ncpus: nat)
    requires 1 <= ncpus
    ensures SafeStart(Lp64) <= PIE_BREAK && 4 * PIE_BREAK <= LongMax(Lp64) && DoubleFits(3 * PIE_BREAK)
    ensures var p := ProgramPlan(ulim, DefaultMemory(Lp64), ncpus, PIE_BREAK);
            p.incr == -677700273 && Request(p, 278516, SuccessfulBreak(p, 278516)) < 0
  {
    var p := ProgramPlan(ulim, DefaultMemory(Lp64), ncpus, PIE_BREAK);
    assert p.max == 4 * PIE_BREAK;
    assert 3 * PIE_BREAK / 500 % INT_RANGE == 3617264975;
    SuccessfulBreakIsClosed(p, 278516);
    DescendingStep(p, 278516);
    assert DescendingIndex(278517) == 139261;
  }

  // -------------------------------------------------- the MAX_SIZE_LC promise

  // The branch that asks for the first break is taken at iteration lc.
  predicate Restarts(p: Plan, oks: seq<bool>, lc: nat)
    requires lc <= |oks|
  {
    lc % 2 == 0 && BreakAt(p, oks, lc) + 2 * p.incr > p.max
  }

  lemma RestartsIsStartsOver(p: Plan, oks: seq<bool>, lc: nat)
    requires p.Rising() && lc <= |oks|
    ensures Restarts(p, oks, lc) <==> StartsOver(p.Top(), oks, lc)
  {
    BreakIsIndex(p, oks, lc);
    RequestMovesIndex(p, lc, Index(p.Top(), oks, lc));
  }

  // A run without failures and with a positive step first comes within one step
  // of the ceiling after exactly FirstPeak iterations.
  lemma FirstReach(p: Plan, n: nat)
    requires p.Rising() && n <= FirstPeak(p.Top())
    ensures SuccessfulBreak(p, n) > p.max - p.incr <==> n == FirstPeak(p.Top())
  {
    SuccessfulBreakIsClosed(p, n);
    FirstPeakIsFirst(p.Top(), n);
    TopInBytes(p, ClosedIndex(p.Top(), n));
  }

  // With a step that is not positive it never comes that close to a ceiling
  // that is at least as far away as the step is long.
  lemma DescentNeverReaches(p: Plan, n: nat)
    requires p.incr <= 0 && p.beg - p.incr <= p.max
    ensures SuccessfulBreak(p, n) <= p.max + p.incr
  {
    SuccessfulBreakIsClosed(p, n);
    NonPositiveMultiple(DescendingIndex(n), p.incr);
  }

  // When the step is kept, that happens after at most 995 iterations.
  lemma MaxSizeReached(beg: nat, max: nat, n: nat)
    requires beg <= max && StepKept(max - beg)
    ensures StoredPlan(beg, max).Rising()
    ensures FirstPeak(StoredPlan(beg, max).Top()) <= 995
    ensures n <= FirstPeak(StoredPlan(beg, max).Top()) ==>
              var p := StoredPlan(beg, max);
              (SuccessfulBreak(p, n) > p.max - p.incr <==> n == FirstPeak(p.Top()))
  {
    var p := StoredPlan(beg, max);
    KeptStepMeaning(max - beg);
    StepsBelowCeiling(max - beg);
    if n <= FirstPeak(p.Top()) {
      FirstReach(p, n);
    }
  }

  // The loop count test will reach max size: the step can be doubled in an `int`
  // and a run without failures comes within one step of the ceiling before
  // iteration number MAX_SIZE_LC, exactly when a 500th of the distance is at most
  // half of INT_MAX.
  lemma MaxSizePromiseIff(beg: nat, max: nat)
    requires beg <= max
    ensures DoubleFits(max - beg)
            && (exists n: nat | n < MAX_SIZE_LC ::
                  var p := StoredPlan(beg, max); SuccessfulBreak(p, n) > p.max - Abs(p.incr))
       <==> StepKept(max - beg)
  {
    var p, d := StoredPlan(beg, max), max - beg;
    if StepKept(d) {
      KeptStepMeaning(d);
      MaxSizeReached(beg, max, 0);
      MaxSizeReached(beg, max, FirstPeak(p.Top()));
    } else if DoubleFits(d) {
      forall n: nat | n < MAX_SIZE_LC
        ensures SuccessfulBreak(p, n) <= p.max - Abs(p.incr)
      {
        NarrowedStepNeverReaches(beg, max, n);
      }
    }
  }

  lemma NarrowedStepNeverReaches(beg: nat, max: nat, n: nat)
    requires beg <= max && n <= MAX_SIZE_LC
    requires DoubleFits(max - beg) && !StepKept(max - beg)
    ensures var p := StoredPlan(beg, max); SuccessfulBreak(p, n) <= p.max - Abs(p.incr)
  {
    hide Step, FirstPeak;
    var p, d := StoredPlan(beg, max), max - beg;
    StepBounds(d);
    if 0 < p.incr {
      StepsBelowCeiling(d);
      LatePeak(p.Top());
      FirstReach(p, n);
    } else {
      DescentNeverReaches(p, n);
    }
  }

  lemma LatePeak(top: nat)
    requires top >= 2 * MAX_SIZE_LC
    ensures FirstPeak(top) > MAX_SIZE_LC
  {
  }

  // A first break for which a 500th of the distance is 2^32: stored in an `int`
  // the step shrinks to 2048.
  const FAR_BREAK: nat := 715827882667

  lemma NarrowedStepLosesPromise(ulim: nat, ncpus: nat, n: nat)
    requires 1 <= ncpus
    requires n <= MAX_SIZE_LC
    ensures var p := ProgramPlan(ulim, DefaultMemory(Lp64), ncpus, FAR_BREAK);
            DoubleFits(p.max - p.beg) && p.incr == 2048 && SuccessfulBreak(p, n) <= p.max - p.incr
  {
    assert Ceiling(ulim, DefaultMemory(Lp64), ncpus, FAR_BREAK) == 4 * FAR_BREAK;
    assert 3 * FAR_BREAK / 500 == INT_RANGE;
    NarrowedStepNeverReaches(FAR_BREAK, 4 * FAR_BREAK, n);
  }

  // From 1024000 bytes upwards the peak comes after 995 iterations and is
  // d % 500 bytes short, so the ceiling itself is met exactly when 500 divides d.
  lemma GapAtPeak(beg: nat, max: nat)
    requires beg + 1024000 <= max && StepKept(max - beg)
    ensures StoredPlan(beg, max).Rising() && FirstPeak(StoredPlan(beg, max).Top()) == 995
    ensures SuccessfulBreak(StoredPlan(beg, max), 995) == max - (max - beg) % 500
  {
    var p := StoredPlan(beg, max);
    KeptStepMeaning(max - beg);
    StepsBelowCeiling(max - beg);
    SuccessfulBreakIsClosed(p, 995);
    FirstPeakIsFirst(500, 995);
  }

  // The comment says every MAX_SIZE_LC'th iteration reaches the maximum. With
  // any positive stored step that can be doubled, each cycle climbs to within one
  // step of the ceiling; when the step is kept the cycle is MAX_SIZE_LC + 2 from
  // 1024000 bytes upwards and at most MAX_SIZE_LC / 2 + 2 below, and otherwise it
  // is more than four times MAX_SIZE_LC, so it is never MAX_SIZE_LC.
  lemma CycleOfProgram(beg: nat, max: nat, oks: seq<bool>, r: nat, cycle: nat)
    requires beg <= max && 4 <= r
    requires DoubleFits(max - beg) && StoredPlan(beg, max).Rising()
    requires cycle == 2 * StoredPlan(beg, max).Top() + 2
    requires AllOk(oks, r, r + cycle)
    requires Restarts(StoredPlan(beg, max), oks, r)
    ensures var p := StoredPlan(beg, max);
            && Restarts(p, oks, r + cycle)
            && (forall lc :: r < lc < r + cycle ==> !Restarts(p, oks, lc))
            && p.max - p.incr < BreakAt(p, oks, r + cycle - 1) <= p.max
    ensures if !StepKept(max - beg) then cycle >= 4 * MAX_SIZE_LC + 2
            else if max - beg >= 1024000 then cycle == MAX_SIZE_LC + 2
            else cycle <= MAX_SIZE_LC / 2 + 2
  {
    var p := StoredPlan(beg, max);
    StepsBelowCeiling(max - beg);
    RestartsIsStartsOver(p, oks, r);
    ExactCycle(p.Top(), oks, r);
    RestartsIsStartsOver(p, oks, r + cycle);
    forall lc | r < lc < r + cycle
      ensures !Restarts(p, oks, lc)
    {
      RestartsIsStartsOver(p, oks, lc);
    }
    BreakIsIndex(p, oks, r + cycle - 1);
    TopInBytes(p, p.Top());
  }

  // With a step that is not positive a run without failures has no cycle at all.
  lemma DescentNeverRestarts(p: Plan, oks: seq<bool>, lc: nat)
    requires p.beg <= p.max && p.incr <= 0 && AllOk(oks, 0, lc)
    ensures !Restarts(p, oks, lc)
  {
    BreakIsClosed(p, oks, lc);
    NonPositiveMultiple(DescendingIndex(lc) + 2, p.incr);
    assert (DescendingIndex(lc) + 2) * p.incr == DescendingIndex(lc) * p.incr + 2 * p.incr;
  }

  // ------------------------------------------------ what a clean log is worth

  // The break came within one step of the ceiling before iteration MAX_SIZE_LC.
  predicate ReachesCeiling(p: Plan, replies: seq<Reply>) {
    exists n: nat | n < MAX_SIZE_LC && n <= |replies| :: Seen(p, replies, n) > p.max - Abs(p.incr)
  }

  // The step can be doubled in an `int`, and whatever the kernel answers,
  // MAX_SIZE_LC iterations without a failure prove that it let the break come
  // within one step of the ceiling, exactly when a 500th of the distance is at
  // most half of INT_MAX.
  lemma CleanLogReachesCeilingIff(beg: nat, max: nat)
    requires beg <= max
    ensures DoubleFits(max - beg)
            && (forall replies: seq<Reply> | MAX_SIZE_LC <= |replies| ::
                  var p := StoredPlan(beg, max);
                  NoFail(Reports(p, true, replies, |replies|)) ==> ReachesCeiling(p, replies))
       <==> StepKept(max - beg)
  {
    var p := StoredPlan(beg, max);
    if StepKept(max - beg) {
      KeptStepMeaning(max - beg);
      forall replies: seq<Reply> | MAX_SIZE_LC <= |replies| && NoFail(Reports(p, true, replies, |replies|))
        ensures ReachesCeiling(p, replies)
      {
        CleanLogReachesCeiling(beg, max, replies);
      }
    } else if DoubleFits(max - beg) {
      var replies := Obedient(p, MAX_SIZE_LC);
      CleanLogIff(p, true, replies, MAX_SIZE_LC);
      forall n: nat | n < MAX_SIZE_LC
        ensures Seen(p, replies, n) <= p.max - Abs(p.incr)
      {
        SeenOnClosedForm(p, replies, n);
        SuccessfulBreakIsClosed(p, n);
        NarrowedStepNeverReaches(beg, max, n);
      }
      assert !ReachesCeiling(p, replies);
    }
  }

  lemma CleanLogReachesCeiling(beg: nat, max: nat, replies: seq<Reply>)
    requires beg <= max && StepKept(max - beg)
    requires MAX_SIZE_LC <= |replies| && NoFail(Reports(StoredPlan(beg, max), true, replies, |replies|))
    ensures ReachesCeiling(StoredPlan(beg, max), replies)
  {
    var p := StoredPlan(beg, max);
    MaxSizeReached(beg, max, 0);
    var n := FirstPeak(p.Top());
    MaxSizeReached(beg, max, n);
    CleanLogIff(p, true, replies, |replies|);
    SeenOnClosedForm(p, replies, n);
    SuccessfulBreakIsClosed(p, n);
  }

  // What the log of any run between two breaks means.
  lemma LogMeaning(beg: nat, max: nat, functional: bool, replies: seq<Reply>)
    requires beg <= max
    ensures var p, n := StoredPlan(beg, max), |replies|;
            && (functional ==> |Reports(p, functional, replies, n)| == n)
            && (NoFail(Reports(p, functional, replies, n)) <==> OnClosedForm(p, functional, replies, n))
            && (functional && NoFail(Reports(p, functional, replies, n)) && MAX_SIZE_LC <= n && StepKept(max - beg) ==>
                  ReachesCeiling(p, replies))
  {
    var p, n := StoredPlan(beg, max), |replies|;
    OneResultEach(p, replies, n);
    CleanLogIff(p, functional, replies, n);
    if functional && NoFail(Reports(p, functional, replies, n)) && MAX_SIZE_LC <= n && StepKept(max - beg) {
      CleanLogReachesCeiling(beg, max, replies);
    }
  }
}
