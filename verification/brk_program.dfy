// brk01 as a program: its globals and locals, setup(), and the loop that drives
// brk(2).
module BrkProgram {
  import opened Arithmetic
  import opened BrkSetup
  import opened BrkWalk
  import opened BrkResults
  import opened BrkPromise

  class BrkTest {
    const width: LongWidth
    const functional: bool      // STD_FUNCTIONAL_TEST
    var brk: int                // the process break, as sbrk(0) returns it
    var maxBrkByteSize: int
    var begBrkVal: int
    var incr: int
    var lc: nat
    var nbrkpt: int
    var curBrkVal: int
    var log: seq<Report>
    ghost var replies: seq<Reply>

    constructor (width: LongWidth, functional: bool, brk: int)
      ensures this.width == width && this.functional == functional && this.brk == brk
      ensures lc == 0 && log == [] && replies == []
    {
      this.width, this.functional, this.brk := width, functional, brk;
      maxBrkByteSize, begBrkVal, incr, lc, nbrkpt, curBrkVal := 0, 0, 0, 0, 0, 0;
      log, replies := [], [];
    }

    ghost function ThePlan(): Plan
      reads this
    {
      Plan(begBrkVal, maxBrkByteSize, incr)
    }

    // The loop has handled exactly the replies received so far.
    ghost predicate Walking()
      reads this
    {
      && lc == |replies|
      && brk == Seen(ThePlan(), replies, lc)
      && log == Reports(ThePlan(), functional, replies, lc)
    }

    // The first half of setup()'s computation, before the current break counts.
    static method CappedShare(ulim: nat, mem: nat, ncpus: nat) returns (maxSize: nat)
      requires 1 <= ncpus
      ensures 2 * ncpus * maxSize <= Min(ulim, mem) && maxSize <= mem / 4
      ensures forall x: nat :: 2 * ncpus * x <= Min(ulim, mem) && x <= mem / 4 ==> x <= maxSize
      ensures maxSize == Min(ShareOfMemory(ulim, mem, ncpus), mem / 4)
    {
      if ulim < mem {
        maxSize := ulim;
      } else {
        maxSize := mem;
      }
      QuotientIsNat(maxSize, 2 * ncpus);
      maxSize := maxSize / (2 * ncpus);
      if maxSize > mem / 4 {
        maxSize := mem / 4;
      }
      forall x: nat
        ensures x <= ShareOfMemory(ulim, mem, ncpus) <==> 2 * ncpus * x <= Min(ulim, mem)
      {
        ShareFits(ulim, mem, ncpus, x);
      }
    }

    // Fails, changing nothing, when getrlimit or sysconf does.
    method Setup(rlimitOk: bool, ulim: nat, mem: nat, nprocs: int) returns (ok: bool)
      requires nprocs == -1 || 1 <= nprocs <= INT_MAX / 2
      requires ulim <= ULongMax(width) && mem <= ULongMax(width)
      requires 0 <= brk && 4 * brk <= LongMax(width)
      modifies this`maxBrkByteSize, this`begBrkVal
      ensures ok <==> rlimitOk && nprocs != -1
      ensures ok ==> begBrkVal == brk && maxBrkByteSize == Ceiling(ulim, mem, nprocs, brk)
      ensures ok ==> 4 * brk <= maxBrkByteSize
      ensures ok ==> maxBrkByteSize == 4 * brk
                     || (2 * nprocs * maxBrkByteSize <= Min(ulim, mem) && maxBrkByteSize <= mem / 4)
      ensures ok ==> forall x: nat :: 2 * nprocs * x <= Min(ulim, mem) && x <= mem / 4 ==> x <= maxBrkByteSize
      ensures !ok ==> begBrkVal == old(begBrkVal) && maxBrkByteSize == old(maxBrkByteSize)
    {
      if !rlimitOk {
        return false;
      }
      if nprocs == -1 {
        return false;
      }
      var maxSize := CappedShare(ulim, mem, nprocs);
      begBrkVal := brk;
      if maxSize < begBrkVal * 4 {
        maxSize := begBrkVal * 4;
      }
      assert maxSize == Ceiling(ulim, mem, nprocs, begBrkVal);
      CeilingFitsLong(width, ulim, mem, nprocs, begBrkVal);
      CeilingIff(ulim, mem, nprocs, begBrkVal, maxSize);
      maxBrkByteSize := ToLong(width, maxSize);
      return true;
    }

    // The stored step. When the conversion to `int` keeps the 500th, the step fits
    // 500 times below the ceiling, or fewer than 251 times if that is near; when
    // it does not, the step fits at least 2000 times or is not positive.
    method ChooseStep()
      requires begBrkVal <= maxBrkByteSize
      requires DoubleFits(maxBrkByteSize - begBrkVal)
      modifies this`incr
      ensures incr == Step(maxBrkByteSize - begBrkVal)
      ensures var q := (maxBrkByteSize - begBrkVal) / 500;
              || (2048 <= incr && (incr - q) % INT_RANGE == 0)
              || (incr < 4096 && (incr - 2048 - q) % INT_RANGE == 0)
      ensures -INT_MAX - 1 <= 2 * incr <= INT_MAX
      ensures StepKept(maxBrkByteSize - begBrkVal) ==>
                var d := maxBrkByteSize - begBrkVal;
                && 2048 <= incr <= Max(d / 500, 4095)
                && (if d >= 1024000 then 500 * incr <= d < 501 * incr else d < 251 * incr)
      ensures incr <= 0 <==> INT_MAX < (maxBrkByteSize - begBrkVal) / 500 % INT_RANGE <= INT_RANGE - 2048
      ensures !StepKept(maxBrkByteSize - begBrkVal) ==> 2000 * incr <= maxBrkByteSize - begBrkVal
    {
      StepBounds(maxBrkByteSize - begBrkVal);
      StepIff(maxBrkByteSize - begBrkVal, Step(maxBrkByteSize - begBrkVal));
      if StepKept(maxBrkByteSize - begBrkVal) {
        KeptStepMeaning(maxBrkByteSize - begBrkVal);
      } else {
        NarrowedStepMeaning(maxBrkByteSize - begBrkVal);
      }
      incr := ToInt((maxBrkByteSize - begBrkVal) / (MAX_SIZE_LC / 2));
      if incr * 2 < 4096 {
        incr := incr + 4096 / 2;
      }
    }

    // One turn of the loop; the kernel may answer anything.
    method Iterate(reply: Reply)
      requires Walking()
      requires SumFits(width, incr, lc, brk)
      modifies this`curBrkVal, this`nbrkpt, this`brk, this`log, this`lc, this`replies
      ensures Walking() && replies == old(replies) + [reply]
      ensures curBrkVal == old(brk) && brk == reply.after
      ensures nbrkpt == Request(ThePlan(), old(lc), old(brk))
      ensures old(lc) % 2 == 0 ==>
                if old(brk) + 2 * incr <= maxBrkByteSize then nbrkpt == old(brk) + 2 * incr else nbrkpt == begBrkVal
      ensures old(lc) % 2 == 1 ==> nbrkpt == if old(lc) == 3 then old(brk) else old(brk) - incr
      ensures lc == old(lc) + 1
    {
      hide Reports;
      curBrkVal := brk;
      if lc == 3 {
        nbrkpt := curBrkVal;
      } else if lc % 2 == 0 {
        nbrkpt := curBrkVal + 2 * incr;
        if nbrkpt > maxBrkByteSize {
          nbrkpt := begBrkVal;
        }
      } else {
        nbrkpt := curBrkVal - incr;
      }
      assert nbrkpt == Request(ThePlan(), lc, curBrkVal);
      brk := reply.after;
      ghost var report := ReportOf(ThePlan(), functional, lc, curBrkVal, reply);
      if reply.ret == -1 {
        log := log + [CallFailed(nbrkpt, curBrkVal, brk)];
      } else if functional {
        if brk == nbrkpt {
          log := log + [Verified(nbrkpt, reply.ret)];
        } else {
          log := log + [WrongSize(nbrkpt, reply.ret, curBrkVal, brk)];
        }
      }
      assert log == old(log) + report;
      ReportsGrow(ThePlan(), functional, replies, reply);
      replies := replies + [reply];
      lc := lc + 1;
    }

    // The whole test, for as many iterations as there are replies.
    method Run(rlimitOk: bool, ulim: nat, mem: nat, nprocs: int, answers: seq<Reply>) returns (ok: bool)
      requires lc == 0 && log == [] && replies == []
      requires nprocs == -1 || 1 <= nprocs <= INT_MAX / 2
      requires ulim <= ULongMax(width) && mem <= ULongMax(width)
      requires 0 <= brk && 4 * brk <= LongMax(width)
      requires nprocs != -1 ==>
                 var p := ProgramPlan(ulim, mem, nprocs, brk);
                 && DoubleFits(p.max - p.beg)
                 && forall n :: 0 <= n < |answers| ==> SumFits(width, p.incr, n, Seen(p, answers, n))
      modifies this
      ensures ok <==> rlimitOk && nprocs != -1
      ensures ok ==> ThePlan() == ProgramPlan(ulim, mem, nprocs, old(brk))
      ensures ok ==> lc == |answers| && brk == Seen(ThePlan(), answers, lc)
      ensures ok ==> log == Reports(ThePlan(), functional, answers, |answers|)
      ensures ok && functional ==> |log| == |answers|
      ensures ok ==> (NoFail(log) <==> OnClosedForm(ThePlan(), functional, answers, |answers|))
      ensures ok && functional && NoFail(log) && MAX_SIZE_LC <= |answers| && StepKept(maxBrkByteSize - begBrkVal) ==>
                ReachesCeiling(ThePlan(), answers)
      ensures !ok ==> lc == 0 && log == [] && brk == old(brk)
    {
      ok := Setup(rlimitOk, ulim, mem, nprocs);
      if !ok {
        return;
      }
      ChooseStep();
      assert Walking();
      hide Reports, Ceiling, Step, NoFail, OnClosedForm, ReachesCeiling, StepKept;
      var i := 0;
      while i < |answers|
        invariant 0 <= i <= |answers|
        invariant ThePlan() == ProgramPlan(ulim, mem, nprocs, old(brk))
        invariant Walking() && replies == answers[..i]
      {
        assert brk == Seen(ThePlan(), answers, i);
        Iterate(answers[i]);
        i := i + 1;
      }
      assert answers[..i] == answers;
      LogMeaning(begBrkVal, maxBrkByteSize, functional, answers);
    }
  }
}
