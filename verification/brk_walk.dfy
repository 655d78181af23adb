// The break-pointer walk of brk01's main loop.
//
// A Plan holds the three numbers that are fixed before the loop. Request is the
// value one iteration hands to brk(2), and BreakAt the break it leaves behind
// when some calls succeed and others fail. Every break reached lies a whole
// number of steps from the first one, so the walk is studied on that number:
// Index refines BreakAt, and top is the number of whole steps below the ceiling.
module BrkWalk {
  import opened Arithmetic
  import opened BrkSetup

  datatype Plan = Plan(beg: int, max: int, incr: int) {
    // The ordinary case. A step narrowed to an `int` can also be zero or negative.
    predicate Rising() {
      beg <= max && 0 < incr
    }

    // How many whole steps fit below the ceiling.
    function Top(): nat
      requires Rising()
    {
      QuotientIsNat(max - beg, incr);
      (max - beg) / incr
    }
  }

  // ------------------------------------------------------------ definitions

  function Request(p: Plan, lc: nat, cur: int): int {
    if lc == 3 then cur
    else if lc % 2 == 0 then
      if cur + 2 * p.incr > p.max then p.beg else cur + 2 * p.incr
    else cur - p.incr
  }

  // The break after n iterations; oks[i] tells whether call i succeeded.
  function BreakAt(p: Plan, oks: seq<bool>, n: nat): int
    requires n <= |oks|
  {
    if n == 0 then p.beg
    else
      var cur := BreakAt(p, oks, n - 1);
      if oks[n - 1] then Request(p, n - 1, cur) else cur
  }

  function NextIndex(top: nat, lc: nat, k: int): int {
    if lc == 3 then k
    else if lc % 2 == 0 then (if k + 2 > top then 0 else k + 2)
    else k - 1
  }

  function Index(top: nat, oks: seq<bool>, n: nat): int
    requires n <= |oks|
  {
    if n == 0 then 0
    else
      var k := Index(top, oks, n - 1);
      if oks[n - 1] then NextIndex(top, n - 1, k) else k
  }

  // Iteration lc would pass the ceiling and asks for the first break instead.
  predicate StartsOver(top: nat, oks: seq<bool>, lc: nat)
    requires lc <= |oks|
  {
    lc % 2 == 0 && Index(top, oks, lc) + 2 > top
  }

  function FailedGrows(oks: seq<bool>, n: nat): nat
    requires n <= |oks|
  {
    if n == 0 then 0
    else FailedGrows(oks, n - 1) + (if n % 2 == 1 && !oks[n - 1] then 1 else 0)
  }

  predicate AllOk(oks: seq<bool>, lo: nat, hi: nat) {
    hi <= |oks| && forall i :: lo <= i < hi ==> oks[i]
  }

  // -------------------------------------------------------------- refinement

  // One request, seen as a step of the index.
  lemma RequestMovesIndex(p: Plan, lc: nat, k: int)
    requires p.Rising()
    ensures Request(p, lc, p.beg + k * p.incr) == p.beg + NextIndex(p.Top(), lc, k) * p.incr
    ensures lc % 2 == 0 ==>
              (p.beg + k * p.incr + 2 * p.incr > p.max <==> k + 2 > p.Top())
  {
    assert (k + 2) * p.incr == k * p.incr + 2 * p.incr;
    assert (k - 1) * p.incr == k * p.incr - p.incr;
    MultipleFits(k + 2, p.incr, p.max - p.beg);
  }

  lemma {:induction false} BreakIsIndex(p: Plan, oks: seq<bool>, n: nat)
    requires p.Rising() && n <= |oks|
    ensures BreakAt(p, oks, n) == p.beg + Index(p.Top(), oks, n) * p.incr
  {
    if n > 0 {
      BreakIsIndex(p, oks, n - 1);
      RequestMovesIndex(p, n - 1, Index(p.Top(), oks, n - 1));
    }
  }

  // ----------------------------------------------------- walks with failures

  // After any mix of successes and failures the index is at most top, and each
  // failed grow lowers the floor by one.
  lemma {:induction false} IndexBounds(top: nat, oks: seq<bool>, n: nat)
    requires n <= |oks|
    ensures Index(top, oks, n) <= top
    ensures Index(top, oks, n) >= (if n % 2 == 0 then -1 else 0) - FailedGrows(oks, n)
  {
    if n > 0 {
      IndexBounds(top, oks, n - 1);
    }
  }

  lemma FloorInBytes(p: Plan, k: int, f: int)
    requires p.Rising() && -f <= k
    ensures p.beg + k * p.incr >= p.beg - f * p.incr
  {
    MultiplesOrdered(-f, k, p.incr);
    NegatedMultiple(f, p.incr);
  }

  // The same in bytes: never above the ceiling, always a whole number of steps
  // from the start, and at most one step plus one per failed grow below it.
  lemma WalkWithFailures(p: Plan, oks: seq<bool>, n: nat)
    requires p.Rising() && n <= |oks|
    ensures BreakAt(p, oks, n) <= p.max
    ensures (BreakAt(p, oks, n) - p.beg) % p.incr == 0
    ensures BreakAt(p, oks, n) >= p.beg - (1 + FailedGrows(oks, n)) * p.incr
    ensures n % 2 == 1 ==> BreakAt(p, oks, n) >= p.beg - FailedGrows(oks, n) * p.incr
  {
    var k := Index(p.Top(), oks, n);
    BreakIsIndex(p, oks, n);
    IndexBounds(p.Top(), oks, n);
    MultipleFits(k, p.incr, p.max - p.beg);
    MultipleHasNoRemainder(k, p.incr);
    FloorInBytes(p, k, 1 + FailedGrows(oks, n));
    if n % 2 == 1 {
      FloorInBytes(p, k, FailedGrows(oks, n));
    }
  }

  // --------------------------------------------- climbing after calls recover

  // From an even iteration past the special case, successful calls gain one
  // step per pair of iterations until the ceiling is in the way.
  lemma {:induction false} Climb(top: nat, oks: seq<bool>, n: nat, i: nat)
    requires 4 <= n && n % 2 == 0
    requires AllOk(oks, n, n + 2 * i)
    requires i == 0 || Index(top, oks, n) + i + 1 <= top
    ensures Index(top, oks, n + 2 * i) == Index(top, oks, n) + i
  {
    if i > 0 {
      Climb(top, oks, n, i - 1);
      var m := n + 2 * (i - 1);
      assert oks[m] && oks[m + 1];
      assert Index(top, oks, m + 1) == Index(top, oks, n) + i + 1;
    }
  }

  // Half a pair later it stands two steps higher.
  lemma ClimbHalf(top: nat, oks: seq<bool>, n: nat, i: nat)
    requires 4 <= n && n % 2 == 0
    requires AllOk(oks, n, n + 2 * i + 1)
    requires Index(top, oks, n) + i + 2 <= top
    ensures Index(top, oks, n + 2 * i + 1) == Index(top, oks, n) + i + 2
  {
    Climb(top, oks, n, i);
    assert oks[n + 2 * i];
  }

  // How many pairs of iterations remain before the walk at index k starts over.
  function PairsLeft(top: nat, k: int): nat {
    Max(0, top - 1 - k)
  }

  lemma QuietWhileClimbing(top: nat, oks: seq<bool>, n: nat, lc: nat)
    requires 4 <= n <= lc && n % 2 == 0
    requires AllOk(oks, n, lc)
    requires lc < n + 2 * PairsLeft(top, Index(top, oks, n))
    ensures !StartsOver(top, oks, lc)
  {
    if lc % 2 == 0 {
      var i := (lc - n) / 2;
      assert lc == n + 2 * i;
      Climb(top, oks, n, i);
    }
  }

  // Progress. Whatever failed before, once calls succeed the next start-over
  // comes exactly PairsLeft pairs later: at most top of them, plus one for
  // every grow that failed so far.
  lemma NextStartOver(top: nat, oks: seq<bool>, n: nat, r: nat)
    requires 4 <= n <= |oks| && n % 2 == 0
    requires r == n + 2 * PairsLeft(top, Index(top, oks, n))
    requires AllOk(oks, n, r)
    ensures StartsOver(top, oks, r)
    ensures forall lc :: n <= lc < r ==> !StartsOver(top, oks, lc)
    ensures r <= n + 2 * (top + FailedGrows(oks, n))
  {
    hide Index;
    IndexBounds(top, oks, n);
    Climb(top, oks, n, PairsLeft(top, Index(top, oks, n)));
    forall lc | n <= lc < r
      ensures !StartsOver(top, oks, lc)
    {
      QuietWhileClimbing(top, oks, n, lc);
    }
  }

  lemma AfterStartOver(top: nat, oks: seq<bool>, r: nat)
    requires 4 <= r < |oks| && oks[r]
    requires StartsOver(top, oks, r)
    ensures Index(top, oks, r + 1) == 0
    ensures r + 1 < |oks| && oks[r + 1] ==> Index(top, oks, r + 2) == -1
  {
  }

  // Between two start-overs the walk stays below the top until the last pair.
  lemma BetweenStartOvers(top: nat, oks: seq<bool>, r: nat, n: nat)
    requires 4 <= r < n <= r + 2 * top + 2
    requires AllOk(oks, r, n)
    requires StartsOver(top, oks, r)
    ensures StartsOver(top, oks, n) <==> n == r + 2 * top + 2
    ensures n <= r + 2 * top ==> Index(top, oks, n) < top
    ensures n == r + 2 * top + 1 ==> Index(top, oks, n) == top
  {
    hide Index;
    AfterStartOver(top, oks, r);
    if n > r + 1 {
      assert oks[r + 1];
      var i := (n - r - 2) / 2;
      if n % 2 == 1 {
        ClimbHalf(top, oks, r + 2, i);
      } else {
        Climb(top, oks, r + 2, i);
      }
    }
  }

  // Exact cycle. Two start-overs are exactly 2*top + 2 iterations apart, with
  // none in between, and the walk peaks at top two iterations before the second.
  lemma ExactCycle(top: nat, oks: seq<bool>, r: nat)
    requires 4 <= r
    requires AllOk(oks, r, r + 2 * top + 2)
    requires StartsOver(top, oks, r)
    ensures StartsOver(top, oks, r + 2 * top + 2)
    ensures forall lc :: r < lc < r + 2 * top + 2 ==> !StartsOver(top, oks, lc)
    ensures Index(top, oks, r + 2 * top + 1) == top
    ensures forall n :: r < n <= r + 2 * top ==> Index(top, oks, n) < top
  {
    forall n | r < n <= r + 2 * top + 2
      ensures StartsOver(top, oks, n) <==> n == r + 2 * top + 2
      ensures n <= r + 2 * top ==> Index(top, oks, n) < top
      ensures n == r + 2 * top + 1 ==> Index(top, oks, n) == top
    {
      BetweenStartOvers(top, oks, r, n);
    }
  }

  lemma {:induction false} CycleRepeats(top: nat, oks: seq<bool>, r: nat, lc: nat)
    requires 4 <= r <= lc
    requires AllOk(oks, r, lc)
    requires StartsOver(top, oks, r)
    ensures StartsOver(top, oks, lc) <==> (lc - r) % (2 * top + 2) == 0
    decreases lc - r
  {
    var cycle := 2 * top + 2;
    if lc < r + cycle {
      DivModUnique(lc - r, cycle, 0, lc - r);
      if r < lc {
        BetweenStartOvers(top, oks, r, lc);
      }
    } else {
      ExactCycle(top, oks, r);
      CycleRepeats(top, oks, r + cycle, lc);
      var q, m := (lc - r - cycle) / cycle, (lc - r - cycle) % cycle;
      assert (q + 1) * cycle == q * cycle + cycle;
      DivModUnique(lc - r, cycle, q + 1, m);
    }
  }

  // Recovery. After any history of failures, a stretch of successful calls
  // starts over at these iterations and at no others, however long it lasts.
  lemma Recovery(top: nat, oks: seq<bool>, n: nat, r: nat, lc: nat)
    requires 4 <= n <= lc <= |oks| && n % 2 == 0
    requires r == n + 2 * PairsLeft(top, Index(top, oks, n))
    requires AllOk(oks, n, lc)
    ensures StartsOver(top, oks, lc) <==> r <= lc && (lc - r) % (2 * top + 2) == 0
  {
    if lc < r {
      QuietWhileClimbing(top, oks, n, lc);
    } else {
      NextStartOver(top, oks, n, r);
      CycleRepeats(top, oks, r, lc);
    }
  }

  // The floor of WalkWithFailures is reached: for every number f of failed grows
  // there is a run with exactly f of them that ends 1 + f steps below the start.
  function SlidingRun(top: nat, f: nat): seq<bool> {
    seq(2 * Phase(top) + 2 + 2 * f, i => i < 2 * Phase(top) + 2 || i % 2 == 1)
  }

  lemma {:induction false} SlideSteps(top: nat, f: nat, g: nat)
    requires g <= f
    ensures var oks, n := SlidingRun(top, f), 2 * Phase(top) + 2 + 2 * g;
            Index(top, oks, n) == -1 - g && FailedGrows(oks, n) == g
  {
    var oks, r := SlidingRun(top, f), 2 * Phase(top);
    if g == 0 {
      NoFailedGrows(oks, r + 2);
      FreshStartOver(top, oks, Phase(top));
    } else {
      SlideSteps(top, f, g - 1);
    }
  }

  lemma {:induction false} NoFailedGrows(oks: seq<bool>, n: nat)
    requires AllOk(oks, 0, n)
    ensures FailedGrows(oks, n) == 0
  {
    if n > 0 {
      NoFailedGrows(oks, n - 1);
    }
  }

  lemma FloorIsReached(p: Plan, f: nat)
    requires p.Rising()
    ensures exists oks: seq<bool> ::
              FailedGrows(oks, |oks|) == f && BreakAt(p, oks, |oks|) == p.beg - (1 + f) * p.incr
  {
    var oks := SlidingRun(p.Top(), f);
    SlideSteps(p.Top(), f, f);
    BreakIsIndex(p, oks, |oks|);
    assert (-1 - f) * p.incr == -((1 + f) * p.incr);
    assert FailedGrows(oks, |oks|) == f && BreakAt(p, oks, |oks|) == p.beg - (1 + f) * p.incr;
  }

  // --------------------------------------------------- runs without failures

  // Half the number of the first start-over at an iteration past the special
  // case. Small tops enter the steady cycle differently.
  function Phase(top: nat): nat {
    if top == 2 then 3 else if top <= 4 then 2 else top - 2
  }

  // The index after n successful iterations, without recursion. Up to n == 4
  // the run is irregular; then it follows one cycle of top + 1 pairs.
  function ClosedIndex(top: nat, n: nat): int {
    if n == 0 then 0
    else if n == 1 then (if top >= 2 then 2 else 0)
    else if n == 2 then (if top >= 2 then 1 else -1)
    else if n <= 4 then (if top >= 3 then 3 else if top == 1 then 1 else 0)
    else if n % 2 == 1 then (n / 2 - Phase(top)) % (top + 1)
    else (n / 2 - 1 - Phase(top)) % (top + 1) - 1
  }

  lemma ClosedStep(top: nat, n: nat)
    ensures ClosedIndex(top, n + 1) == NextIndex(top, n, ClosedIndex(top, n))
  {
    if n == 4 {
      if top >= 5 {
        DivModUnique(4 - top, top + 1, -1, 5);
      } else {
        assert (2 - Phase(0)) % 1 == 0 && (2 - Phase(1)) % 2 == 0 && (2 - Phase(2)) % 3 == 2;
        assert (2 - Phase(3)) % 4 == 0 && (2 - Phase(4)) % 5 == 0;
      }
    } else if n > 4 && n % 2 == 0 {
      ModSucc(n / 2 - 1 - Phase(top), top + 1);
    }
  }

  lemma {:induction false} ClosedForm(top: nat, oks: seq<bool>, n: nat)
    requires AllOk(oks, 0, n)
    ensures Index(top, oks, n) == ClosedIndex(top, n)
  {
    if n > 0 {
      ClosedForm(top, oks, n - 1);
      ClosedStep(top, n - 1);
      assert oks[n - 1];
    }
  }

  // Every start-over of a run without failures, and no others.
  lemma StartOverSchedule(top: nat, oks: seq<bool>, lc: nat)
    requires AllOk(oks, 0, lc)
    ensures StartsOver(top, oks, lc) <==>
              || (lc == 0 && top <= 1)
              || (lc == 2 && (top == 0 || top == 2))
              || (lc >= 4 && lc % 2 == 0 && (lc / 2 - Phase(top)) % (top + 1) == 0)
  {
    ClosedForm(top, oks, lc);
    if lc >= 4 && lc % 2 == 0 {
      ClosedStep(top, lc);
      assert NextIndex(top, lc, ClosedIndex(top, lc)) == (lc / 2 - Phase(top)) % (top + 1);
      AfterShrink(top, lc);
    }
  }

  // Before a grow past the special case a run without failures is at -1 or above.
  lemma AfterShrink(top: nat, n: nat)
    requires n % 2 == 0
    ensures -1 <= ClosedIndex(top, n)
  {
  }

  lemma FreshStartOver(top: nat, oks: seq<bool>, j: nat)
    requires j == Phase(top)
    requires AllOk(oks, 0, 2 * j + 2)
    ensures StartsOver(top, oks, 2 * j)
    ensures Index(top, oks, 2 * j + 1) == 0 && Index(top, oks, 2 * j + 2) == -1
  {
    StartOverSchedule(top, oks, 2 * j);
    assert oks[2 * j] && oks[2 * j + 1];
  }

  // The first start-over of a run without failures.
  function FirstStartOver(top: nat): nat {
    if top <= 1 then 0 else if top == 2 then 2 else Max(4, 2 * top - 4)
  }

  // The first pass upwards: one step per pair, with the special case at
  // iteration 3 adding exactly one permanent step.
  lemma FirstPass(top: nat, oks: seq<bool>, m: nat)
    requires AllOk(oks, 0, 2 * m)
    ensures 2 * m == FirstStartOver(top) ==> StartsOver(top, oks, 2 * m)
    ensures 2 * m < FirstStartOver(top) ==> !StartsOver(top, oks, 2 * m)
    ensures 2 * m <= FirstStartOver(top) ==>
              Index(top, oks, 2 * m) == if m <= 1 then m else m + 1
  {
    ClosedForm(top, oks, 2 * m);
    StartOverSchedule(top, oks, 2 * m);
    if m >= 3 && 2 * m <= FirstStartOver(top) {
      DivModUnique(m - 1 - Phase(top), top + 1, -1, m + 2);
      if 2 * m < FirstStartOver(top) {
        DivModUnique(m - Phase(top), top + 1, -1, m + 3);
      }
    }
  }

  // The highest index a run without failures tries to grow to.
  function HighestTry(top: nat): nat {
    if top <= 1 || top == 3 then top + 2 else top + 1
  }

  // The even iteration at which it first does.
  function HighestTryAt(top: nat): nat {
    if top == 0 then 0 else if top == 2 then 2 else if top <= 4 then 4 else 2 * top - 4
  }

  lemma HighestTryIsHighest(top: nat, n: nat)
    requires n % 2 == 0
    ensures ClosedIndex(top, n) + 2 <= HighestTry(top)
    ensures n == HighestTryAt(top) ==> ClosedIndex(top, n) + 2 == HighestTry(top)
  {
    if n == HighestTryAt(top) && top >= 5 {
      DivModUnique(-1, top + 1, -1, top);
    }
  }

  // How many iterations a run without failures needs to stand top steps above
  // its start for the first time.
  function FirstPeak(top: nat): nat {
    if top == 0 then 0
    else if top == 2 then 1
    else if top <= 3 then 3
    else if top == 4 then 13
    else 2 * top - 5
  }

  lemma FirstPeakIsFirst(top: nat, n: nat)
    requires n <= FirstPeak(top)
    ensures ClosedIndex(top, n) <= top
    ensures ClosedIndex(top, n) == top <==> n == FirstPeak(top)
  {
    if top == 4 {
      assert forall i :: -2 <= i < 5 ==> i % 5 == if i < 0 then i + 5 else i;
    } else if top >= 5 && n >= 5 {
      var h := n / 2 - (if n % 2 == 1 then 0 else 1);
      DivModUnique(h - Phase(top), top + 1, -1, h + 3);
    }
  }

  // ------------------------------------------------ steps that are not positive

  lemma NonPositiveMultiple(k: nat, m: int)
    requires m <= 0
    ensures k * m <= 0
    ensures m < 0 ==> k * m <= 0 - k
  {
    MultiplesOrdered(0, k, -m);
    assert k * m == -(k * -m);
    if m < 0 && k > 0 {
      MultiplesOrdered(1, -m, k);
      assert -m * k == k * -m;
    }
  }

  // With a step of zero or less no grow passes the ceiling, so the walk never
  // starts over and this many steps accumulate in n successful iterations.
  function DescendingIndex(n: nat): nat {
    if n == 0 then 0
    else if n == 1 then 2
    else if n == 2 then 1
    else if n == 3 then 3
    else if n % 2 == 0 then n / 2 + 1
    else n / 2 + 3
  }

  // By the even iteration `last` the walk has asked for at most this many steps,
  // and has just done so.
  lemma DescendingDepth(last: nat, n: nat)
    requires 4 <= last && last % 2 == 0 && n <= last
    ensures DescendingIndex(n + 1) <= DescendingIndex(last + 1) == last / 2 + 3
  {
  }

  lemma DescendingStep(p: Plan, n: nat)
    requires p.beg <= p.max && p.incr <= 0
    ensures Request(p, n, p.beg + DescendingIndex(n) * p.incr) == p.beg + DescendingIndex(n + 1) * p.incr
  {
    var k := DescendingIndex(n);
    NonPositiveMultiple(k + 2, p.incr);
    assert (k + 2) * p.incr == k * p.incr + 2 * p.incr;
    assert (k - 1) * p.incr == k * p.incr - p.incr;
  }

  // ------------------------------------------- any history, any sign of the step

  // Iteration lc asks for the first break because growing would pass the
  // ceiling, and gets it.
  predicate StartedOver(p: Plan, oks: seq<bool>, lc: nat)
    requires lc < |oks|
  {
    lc % 2 == 0 && oks[lc] && BreakAt(p, oks, lc) + 2 * p.incr > p.max
  }

  // The first iteration after the last start-over before n, or 0.
  function SinceStart(p: Plan, oks: seq<bool>, n: nat): (since: nat)
    requires n <= |oks|
    ensures since <= n
    ensures since == 0 || StartedOver(p, oks, since - 1)
    ensures forall lc :: since <= lc < n ==> !StartedOver(p, oks, lc)
  {
    if n == 0 then 0
    else if StartedOver(p, oks, n - 1) then n
    else SinceStart(p, oks, n - 1)
  }

  // The successful grows and the successful shrinks from iteration lo to hi;
  // iteration 3 is neither.
  function Grows(oks: seq<bool>, lo: nat, hi: nat): nat
    requires lo <= hi <= |oks|
  {
    if lo == hi then 0 else Grows(oks, lo, hi - 1) + (if (hi - 1) % 2 == 0 && oks[hi - 1] then 1 else 0)
  }

  function Shrinks(oks: seq<bool>, lo: nat, hi: nat): nat
    requires lo <= hi <= |oks|
  {
    if lo == hi then 0
    else Shrinks(oks, lo, hi - 1) + (if (hi - 1) % 2 == 1 && hi - 1 != 3 && oks[hi - 1] then 1 else 0)
  }

  // Conservation. Whatever fails, and whatever the sign of the step, the break
  // is the first one plus two steps for every grow and minus one for every
  // shrink that succeeded since the last start-over.
  lemma {:induction false} BreakIsBalance(p: Plan, oks: seq<bool>, n: nat)
    requires n <= |oks|
    ensures var lo := SinceStart(p, oks, n);
            BreakAt(p, oks, n) == p.beg + (2 * Grows(oks, lo, n) - Shrinks(oks, lo, n)) * p.incr
  {
    if n > 0 && !StartedOver(p, oks, n - 1) {
      BreakIsBalance(p, oks, n - 1);
      var lo := SinceStart(p, oks, n - 1);
      var k := 2 * Grows(oks, lo, n - 1) - Shrinks(oks, lo, n - 1);
      assert (k + 2) * p.incr == k * p.incr + 2 * p.incr;
      assert (k - 1) * p.incr == k * p.incr - p.incr;
    }
  }

  // ---------------------------------------- runs without failures, any step

  // The break after n iterations of a run without failures, without recursion.
  function ClosedBreak(p: Plan, n: nat): int
    requires p.beg <= p.max
  {
    p.beg + (if p.Rising() then ClosedIndex(p.Top(), n) else DescendingIndex(n)) * p.incr
  }

  lemma ClosedBreakStep(p: Plan, n: nat)
    requires p.beg <= p.max
    ensures Request(p, n, ClosedBreak(p, n)) == ClosedBreak(p, n + 1)
  {
    if p.Rising() {
      RequestMovesIndex(p, n, ClosedIndex(p.Top(), n));
      ClosedStep(p.Top(), n);
    } else {
      DescendingStep(p, n);
    }
  }

  lemma {:induction false} BreakIsClosed(p: Plan, oks: seq<bool>, n: nat)
    requires p.beg <= p.max && AllOk(oks, 0, n)
    ensures BreakAt(p, oks, n) == ClosedBreak(p, n)
  {
    if n > 0 {
      BreakIsClosed(p, oks, n - 1);
      ClosedBreakStep(p, n - 1);
      assert oks[n - 1];
    }
  }
}
