// The two numbers brk01 fixes before its loop: the memory ceiling computed by
// setup() and the step computed at the top of main().
module BrkSetup {
  import opened Arithmetic

  const MAX_SIZE_LC: nat := 1000

  datatype LongWidth = Ilp32 | Lp64

  function SizeofLong(w: LongWidth): nat {
    if w.Ilp32? then 4 else 8
  }

  function LongMax(w: LongWidth): nat {
    if w.Ilp32? then 0x7fff_ffff else 0x7fff_ffff_ffff_ffff
  }

  function ULongMax(w: LongWidth): nat {
    2 * LongMax(w) + 1
  }

  predicate InLong(w: LongWidth, x: int) {
    -1 - LongMax(w) <= x <= LongMax(w)
  }

  // What an `unsigned long` becomes when it is stored in a `long`.
  function ToLong(w: LongWidth, x: nat): int
    requires x <= ULongMax(w)
  {
    if x <= LongMax(w) then x else x - (ULongMax(w) + 1)
  }

  // The memory size used everywhere but on CRAY.
  function DefaultMemory(w: LongWidth): nat {
    1024 * 1024 * SizeofLong(w)
  }

  // ---------------------------------------------------------------- ceiling

  function ShareOfMemory(ulim: nat, mem: nat, ncpus: nat): nat
    requires 1 <= ncpus
  {
    QuotientIsNat(Min(ulim, mem), 2 * ncpus);
    Min(ulim, mem) / (2 * ncpus)
  }

  // The larger of four times the current break and the capped share.
  function Ceiling(ulim: nat, mem: nat, ncpus: nat, beg: nat): (max: nat)
    requires 1 <= ncpus
    ensures 4 * beg <= max
  {
    Max(4 * beg, Min(ShareOfMemory(ulim, mem, ncpus), mem / 4))
  }

  lemma ShareFits(ulim: nat, mem: nat, ncpus: nat, x: nat)
    requires 1 <= ncpus
    ensures x <= ShareOfMemory(ulim, mem, ncpus) <==> 2 * ncpus * x <= Min(ulim, mem)
  {
    MultipleFits(x, 2 * ncpus, Min(ulim, mem));
    assert x * (2 * ncpus) == 2 * ncpus * x;
  }

  // Three facts fix the ceiling: it is at least four times the current break;
  // unless it is just that, it meets both caps; and no amount that meets both
  // caps is larger.
  lemma CeilingIff(ulim: nat, mem: nat, ncpus: nat, beg: nat, max: nat)
    requires 1 <= ncpus
    ensures max == Ceiling(ulim, mem, ncpus, beg) <==>
              && 4 * beg <= max
              && (max == 4 * beg || (2 * ncpus * max <= Min(ulim, mem) && max <= mem / 4))
              && (forall x: nat :: 2 * ncpus * x <= Min(ulim, mem) && x <= mem / 4 ==> x <= max)
  {
    var share := ShareOfMemory(ulim, mem, ncpus);
    forall x: nat
      ensures x <= share <==> 2 * ncpus * x <= Min(ulim, mem)
    {
      ShareFits(ulim, mem, ncpus, x);
    }
    hide ShareOfMemory;
    var capped: nat := Min(share, mem / 4);
    assert 2 * ncpus * capped <= Min(ulim, mem) && capped <= mem / 4;
  }

  // setup() promises room for 2*ncpus copies and never more than a quarter of
  // memory. Each promise is kept exactly when four times the current break,
  // the value that overrides the share, keeps it; so both are kept whenever the
  // override stays silent.
  lemma BudgetKeptIff(ulim: nat, mem: nat, ncpus: nat, beg: nat)
    requires 1 <= ncpus
    ensures 2 * ncpus * Ceiling(ulim, mem, ncpus, beg) <= Min(ulim, mem)
       <==> 2 * ncpus * (4 * beg) <= Min(ulim, mem)
    ensures Ceiling(ulim, mem, ncpus, beg) <= mem / 4 <==> 4 * beg <= mem / 4
    ensures 4 * beg <= Min(ShareOfMemory(ulim, mem, ncpus), mem / 4) ==>
              && 2 * ncpus * Ceiling(ulim, mem, ncpus, beg) <= Min(ulim, mem)
              && Ceiling(ulim, mem, ncpus, beg) <= mem / 4
  {
    ShareFits(ulim, mem, ncpus, Ceiling(ulim, mem, ncpus, beg));
    ShareFits(ulim, mem, ncpus, 4 * beg);
  }

  // The quarter cap lowers the share only on a single CPU, and there exactly
  // when the limit leaves room for more than twice the quarter, plus one.
  lemma QuarterCapBitesIff(ulim: nat, mem: nat, ncpus: nat)
    requires 1 <= ncpus
    ensures ShareOfMemory(ulim, mem, ncpus) > mem / 4
       <==> ncpus == 1 && Min(ulim, mem) >= 2 * (mem / 4) + 2
  {
    var cap := mem / 4 + 1;
    ShareFits(ulim, mem, ncpus, cap);
    if ncpus >= 2 {
      assert 2 * ncpus * cap >= 4 * cap > mem;
    }
  }

  // Both promises broken at once: 8 MiB of memory, two CPUs, a 1 MiB break.
  lemma BudgetCanBeExceeded()
    ensures var mem := DefaultMemory(Lp64); var top := Ceiling(mem, mem, 2, 1024 * 1024);
            top > mem / 4 && 2 * 2 * top > Min(mem, mem)
  {
  }

  // The final conversion of the ceiling from `unsigned long` to `long` is exact.
  lemma CeilingFitsLong(w: LongWidth, ulim: nat, mem: nat, ncpus: nat, beg: nat)
    requires 1 <= ncpus
    requires mem <= ULongMax(w) && 4 * beg <= LongMax(w)
    ensures beg <= Ceiling(ulim, mem, ncpus, beg) <= LongMax(w)
    ensures ToLong(w, Ceiling(ulim, mem, ncpus, beg)) == Ceiling(ulim, mem, ncpus, beg)
  {
  }

  // ------------------------------------------------------------------- step

  // The step main() stores for a distance d between the first break and the
  // ceiling: a 500th of it, converted to `int`, and enlarged when too small.
  function Step(d: nat): int {
    var q := ToInt(d / (MAX_SIZE_LC / 2));
    if q * 2 < 4096 then q + 4096 / 2 else q
  }

  // The same computation without the conversion.
  function WideStep(d: nat): nat {
    var q := d / (MAX_SIZE_LC / 2);
    if q * 2 < 4096 then q + 4096 / 2 else q
  }

  // Doubling the stored 500th, and later the step, does not overflow an `int`.
  predicate DoubleFits(d: nat) {
    -INT_MAX - 1 <= 2 * ToInt(d / (MAX_SIZE_LC / 2)) <= INT_MAX
  }

  // The 500th and its double both fit an `int`.
  predicate StepKept(d: nat) {
    d / (MAX_SIZE_LC / 2) <= INT_MAX / 2
  }

  // The step is stored and doubled without overflow and without losing its
  // value exactly while a 500th of the distance is at most half of INT_MAX.
  lemma StepKeptIff(d: nat)
    ensures DoubleFits(d) && Step(d) == WideStep(d) <==> StepKept(d)
  {
  }

  // Two cases fix the stored step: it agrees with the 500th in its low 32 bits
  // and is at least 2048, or it exceeds it there by 2048 and is below 4096.
  lemma StepIff(d: nat, s: int)
    ensures s == Step(d) <==>
              || (2048 <= s <= INT_MAX && (s - d / 500) % INT_RANGE == 0)
              || (-INT_MAX - 1 <= s - 2048 && s < 4096 && (s - 2048 - d / 500) % INT_RANGE == 0)
  {
    var q := d / 500;
    ToIntUnique(q, s);
    ToIntUnique(q, s - 2048);
  }

  lemma ToIntUnique(x: int, y: int)
    ensures y == ToInt(x) <==> -INT_MAX - 1 <= y <= INT_MAX && (y - x) % INT_RANGE == 0
  {
  }

  // Where the doubling is defined, the stored step can be doubled too. It is
  // never more than the larger of a 500th and 4095; it is at least 2048 when the
  // 500th is kept, and otherwise its sign depends on the low 32 bits of the 500th.
  lemma StepBounds(d: nat)
    requires DoubleFits(d)
    ensures -INT_MAX - 1 <= 2 * Step(d) <= INT_MAX
    ensures Step(d) <= Max(d / 500, 4095)
    ensures StepKept(d) ==> 2048 <= Step(d) && d / 500 <= Step(d)
    ensures Step(d) < 0 <==> INT_MAX < d / 500 % INT_RANGE < INT_RANGE - 2048
    ensures Step(d) == 0 <==> d / 500 % INT_RANGE == INT_RANGE - 2048
  {
  }

  // A kept step fits exactly 500 times into 1024000 bytes or more, with d % 500
  // bytes left over, and fewer than 251 times into less.
  lemma KeptStepMeaning(d: nat)
    requires StepKept(d)
    ensures DoubleFits(d) && 2048 <= Step(d) <= Max(d / 500, 4095)
    ensures d >= 1024000 ==> 500 * Step(d) <= d < 501 * Step(d) && d - 500 * Step(d) == d % 500
    ensures d < 1024000 ==> d < 251 * Step(d)
  {
    assert d == 500 * (d / 500) + d % 500;
  }

  // A step that is not kept but can be doubled fits at least 2000 times.
  lemma NarrowedStepMeaning(d: nat)
    requires DoubleFits(d) && !StepKept(d)
    ensures 2000 * Step(d) <= d
  {
    var q := d / 500;
    assert 500 * q <= d;
    if 4095 < Step(d) {
      assert Step(d) == q % INT_RANGE <= INT_MAX / 2 && INT_RANGE <= q;
    }
  }

  // How many positive stored steps fit into the distance.
  lemma StepsBelowCeiling(d: nat)
    requires DoubleFits(d) && 0 < Step(d)
    ensures StepKept(d) && d >= 1024000 ==> d / Step(d) == 500 && d - 500 * Step(d) == d % 500
    ensures StepKept(d) && d < 1024000 ==> d / Step(d) <= 250
    ensures !StepKept(d) ==> d / Step(d) >= 2 * MAX_SIZE_LC
  {
    hide Step, DoubleFits, StepKept;
    if !StepKept(d) {
      NarrowedStepMeaning(d);
      MultipleFits(2 * MAX_SIZE_LC, Step(d), d);
    } else {
      KeptStepMeaning(d);
      MultipleFits(500, Step(d), d);
      MultipleFits(501, Step(d), d);
      MultipleFits(251, Step(d), d);
    }
  }

  // Two first breaks whose step is stored in an `int` as a positive number, the
  // second one without losing its value, and cannot be doubled there.
  lemma DoublingCanOverflow()
    ensures var beg := 0x557300554000;
            4 * beg <= LongMax(Lp64) && 0 <= Step(3 * beg) && !DoubleFits(3 * beg)
    ensures var beg := 178956971501;
            4 * beg <= LongMax(Lp64) && Step(3 * beg) == WideStep(3 * beg) && !DoubleFits(3 * beg)
  {
    assert 3 * 0x557300554000 / 500 == 563714491121 && 563714491121 % INT_RANGE == 1073775345;
    assert 3 * 178956971501 / 500 == 1073741829;
    assert ToInt(563714491121) == 1073775345 && ToInt(1073741829) == 1073741829;
  }

  // ------------------------------------------------- the step and the first break

  // The smallest starting break that no limit and no CPU count can make unsafe
  // while the step survives its conversion.
  function SafeStart(w: LongWidth): nat {
    if w.Ilp32? then 4095 else 4185
  }

  // The ceiling is the overriding one, or within a quarter of memory.
  lemma CeilingCases(w: LongWidth, ulim: nat, ncpus: nat, beg: nat)
    requires 1 <= ncpus
    ensures var max := Ceiling(ulim, DefaultMemory(w), ncpus, beg);
            beg <= max && (max == 4 * beg || max <= 2097152)
    ensures w.Ilp32? ==> var max := Ceiling(ulim, DefaultMemory(w), ncpus, beg);
                         max == 4 * beg || max <= 1048576
    ensures Ceiling(0, DefaultMemory(w), 1, beg) == 4 * beg
  {
    assert ShareOfMemory(0, DefaultMemory(w), 1) == 0;
  }

  lemma StepWithinStart(w: LongWidth, ulim: nat, ncpus: nat, beg: nat)
    requires 1 <= ncpus
    requires SafeStart(w) <= beg && DoubleFits(3 * beg) && 0 <= Step(3 * beg)
    ensures var d := Ceiling(ulim, DefaultMemory(w), ncpus, beg) - beg;
            DoubleFits(d) && 0 <= Step(d) <= beg
  {
    hide Ceiling, DefaultMemory, Step, DoubleFits;
    var max := Ceiling(ulim, DefaultMemory(w), ncpus, beg);
    CeilingCases(w, ulim, ncpus, beg);
    if max == 4 * beg {
      StepBounds(3 * beg);
    } else {
      KeptStepMeaning(max - beg);
    }
  }

  // Below the threshold one CPU and this limit make the step exceed the first break.
  function HighLimit(w: LongWidth, beg: nat): nat {
    if w.Ilp32? then 2 * (1023999 + beg) else DefaultMemory(w)
  }

  lemma HighLimitCeiling(w: LongWidth, beg: nat)
    requires beg < SafeStart(w)
    ensures Ceiling(HighLimit(w, beg), DefaultMemory(w), 1, beg) - beg
         == if w.Ilp32? then 1023999 else 2097152 - beg
  {
    assert ShareOfMemory(HighLimit(w, beg), DefaultMemory(w), 1) == if w.Ilp32? then 1023999 + beg else 4194304;
  }

  lemma StepAboveLowStart(w: LongWidth, beg: nat)
    requires beg < SafeStart(w)
    ensures Step(Ceiling(HighLimit(w, beg), DefaultMemory(w), 1, beg) - beg) > beg
  {
    assert Step(1023999) == 4095;
    hide Step, Ceiling, DefaultMemory, HighLimit;
    HighLimitCeiling(w, beg);
    if w.Lp64? {
      KeptStepMeaning(2097152 - beg);
    }
  }

  // With the default memory size, the step can be stored and doubled and is
  // between zero and the first break, whatever the limit and CPU count, exactly
  // from this threshold upwards and as long as the step of the overriding ceiling
  // can be doubled and is not negative.
  lemma StepWithinStartIff(w: LongWidth, beg: nat)
    ensures (forall ulim: nat, ncpus: nat | 1 <= ncpus ::
               var d := Ceiling(ulim, DefaultMemory(w), ncpus, beg) - beg;
               DoubleFits(d) && 0 <= Step(d) <= beg)
       <==> SafeStart(w) <= beg && DoubleFits(3 * beg) && 0 <= Step(3 * beg)
  {
    hide Step, DoubleFits, DefaultMemory, Ceiling;
    CeilingCases(w, 0, 1, beg);
    if SafeStart(w) <= beg && DoubleFits(3 * beg) && 0 <= Step(3 * beg) {
      forall ulim: nat, ncpus: nat | 1 <= ncpus
        ensures var d := Ceiling(ulim, DefaultMemory(w), ncpus, beg) - beg;
                DoubleFits(d) && 0 <= Step(d) <= beg
      {
        StepWithinStart(w, ulim, ncpus, beg);
      }
    } else if beg < SafeStart(w) {
      StepAboveLowStart(w, beg);
    } else {
      assert Ceiling(0, DefaultMemory(w), 1, beg) - beg == 3 * beg;
    }
  }
}
