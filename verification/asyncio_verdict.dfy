// What a whole run of asyncio02 reports, and what those reports establish.
module AsyncIoVerdict {
  import opened Arithmetic
  import opened AsyncIoKernel
  import opened AsyncIo

  // ------------------------------------------------------- the calls of a run

  // The chunk loop makes (first / decr) + 1 calls when it starts at first >= 0;
  // call number j writes first - j * decr bytes at a time, never a negative number.
  lemma {:induction false} ChunkCalls(flag: OpenFlags, first: nat, decr: nat, j: nat)
    requires 1 <= decr
    ensures |ChunkEvents(flag, first, decr)| == first / decr + 1
    ensures j <= first / decr ==>
              0 <= first - j * decr
              && ChunkEvents(flag, first, decr)[j] == Call(3, FNAME3, flag, first - j * decr)
    decreases first
  {
    MultipleFits(j, decr, first);
    if first < decr {
      DivModUnique(first, decr, 0, first);
      if j <= first / decr {
        assert j == 0;
      }
    } else {
      var q, r := first / decr, first % decr;
      assert first - decr == (q - 1) * decr + r by {
        assert (q - 1) * decr == q * decr - decr;
      }
      DivModUnique(first - decr, decr, q - 1, r);
      if j == 0 {
        ChunkCalls(flag, first - decr, decr, 0);
      } else {
        ChunkCalls(flag, first - decr, decr, j - 1);
        assert (j - 1) * decr == j * decr - decr;
      }
    }
  }

  // Different calls of one chunk loop use different sizes.
  lemma ChunkSizesDiffer(flag: OpenFlags, first: nat, decr: nat, i: nat, j: nat)
    requires 1 <= decr && i < j < |ChunkEvents(flag, first, decr)|
    ensures var es := ChunkEvents(flag, first, decr);
            es[i].Call? && es[j].Call? && es[j].bytes < es[i].bytes
  {
    ChunkCalls(flag, first, decr, i);
    ChunkCalls(flag, first, decr, j);
    AtLeastOneMultiple(j - i, decr);
    assert (j - i) * decr == j * decr - i * decr;
  }

  predicate WithinBuffer(es: seq<Event>, bufsiz: nat) {
    forall i :: 0 <= i < |es| && es[i].Call? ==> es[i].bytes <= bufsiz + 1
  }

  lemma {:induction false} ChunksWithinBuffer(flag: OpenFlags, i: int, decr: nat, bufsiz: nat)
    requires 1 <= decr && i <= bufsiz
    ensures WithinBuffer(ChunkEvents(flag, i, decr), bufsiz)
    decreases i + 1
  {
    if i >= 0 {
      ChunksWithinBuffer(flag, i - decr, decr, bufsiz);
    }
  }

  lemma {:induction false} SweepWithinBuffer(flags: seq<OpenFlags>, bufsiz: nat, decr: nat)
    requires 1 <= decr
    ensures WithinBuffer(SweepEvents(flags, bufsiz, decr), bufsiz)
  {
    if flags != [] {
      ChunksWithinBuffer(flags[0], bufsiz - 1, decr, bufsiz);
      SweepWithinBuffer(flags[1..], bufsiz, decr);
    }
  }

  // No call of a run writes more than the buffer main() allocated.
  lemma {:induction false} RunWithinBuffer(flags: seq<OpenFlags>, bufsiz: nat, decr: nat, loops: nat)
    requires 1 <= decr
    ensures WithinBuffer(RunEvents(flags, bufsiz, decr, loops), bufsiz)
  {
    if loops > 0 {
      SweepWithinBuffer(flags, bufsiz, decr);
      RunWithinBuffer(flags, bufsiz, decr, loops - 1);
    }
  }

  // ------------------------------------------------------------- the verdict

  predicate Clean(log: seq<Report>) {
    forall i :: 0 <= i < |log| ==> log[i].Pass?
  }

  predicate Complete(e: Event, s: Script) {
    e.Call? ==> AllFull(s.writes, e.bytes)
  }

  // The answers a run can meet: right number of writes, each within range, and
  // an expected size that fits an int.
  predicate Plausible(es: seq<Event>, env: nat -> Script, writes: nat) {
    forall i :: 0 <= i < |es| && es[i].Call? ==>
      && |env(i).writes| == writes
      && EachWithin(env(i).writes, -1, es[i].bytes)
      && es[i].bytes * writes <= INT_MAX
  }

  // A call that went through reports OK exactly when every write was full.
  lemma RetIsOkIff(e: Event, s: Script, functional: bool)
    requires !Aborts(e, s, functional)
    requires e.Call? ==> EachWithin(s.writes, -1, e.bytes) && e.bytes * |s.writes| <= INT_MAX
    ensures RetOf(e, s, functional) == OK <==> !functional || Complete(e, s)
  {
    if e.Call? {
      assert -1 !in s.writes;
      assert EachWithin(s.writes, 0, e.bytes);
      SizeCheckMeansComplete(s.writes, e.bytes);
    }
  }

  lemma CleanAppend(a: seq<Report>, b: seq<Report>)
    ensures Clean(a + b) <==> Clean(a) && Clean(b)
  {
    if Clean(a + b) {
      assert forall i :: 0 <= i < |a| ==> a[i] == (a + b)[i];
      assert forall i :: 0 <= i < |b| ==> b[i] == (a + b)[|a| + i];
    }
  }

  lemma CleanNothing()
    ensures Clean([])
  {
  }

  // A call is reported as a failure exactly when testrun did not return OK;
  // the event that closes the third phase never is.
  lemma CleanReportIff(e: Event, s: Script, ret: int, writes: nat, functional: bool)
    ensures Clean(ReportOf(e, ret, writes, functional)) <==> e.ChunksDone? || ret == OK
    ensures e.ChunksDone? ==> Complete(e, s)
  {
    var report := ReportOf(e, ret, writes, functional);
    assert report != [] ==> (Clean(report) <==> report[0].Pass?);
  }

  // A run that was not ended early reports no failure exactly when, with
  // functional testing on, every write of every call was full.
  lemma {:induction false} CleanRunIff(es: seq<Event>, env: nat -> Script, writes: nat, functional: bool, n: nat)
    requires n <= |es| && NoAborts(es, env, functional, n) && Plausible(es, env, writes)
    ensures Clean(Reports(es, env, writes, functional, n)) <==>
              !functional || forall i :: 0 <= i < n ==> Complete(es[i], env(i))
  {
    hide RetOf, ReportOf, Aborts, Clean, Complete;
    if n == 0 {
      CleanNothing();
    } else {
      var e, s := es[n - 1], env(n - 1);
      var ret := RetOf(e, s, functional);
      RetIsOkIff(e, s, functional);
      CleanReportIff(e, s, ret, writes, functional);
      CleanRunIff(es, env, writes, functional, n - 1);
      CleanAppend(Reports(es, env, writes, functional, n - 1), ReportOf(e, ret, writes, functional));
    }
  }

  // The same for main() itself.
  lemma CleanMainIff(flags: seq<OpenFlags>, bufsiz: nat, decr: nat, loops: nat,
                     env: nat -> Script, writes: nat, functional: bool,
                     sizes: map<string, nat>, fds: map<int, Descriptor>)
    requires 1 <= decr && (bufsiz + 1) * writes <= INT_MAX
    requires AllPossible(RunEvents(flags, bufsiz, decr, loops), env, writes, sizes, fds)
    requires var es := RunEvents(flags, bufsiz, decr, loops); NoAborts(es, env, functional, |es|)
    ensures var es := RunEvents(flags, bufsiz, decr, loops);
            Clean(Reports(es, env, writes, functional, |es|)) <==>
              !functional || forall i :: 0 <= i < |es| ==> Complete(es[i], env(i))
  {
    var es := RunEvents(flags, bufsiz, decr, loops);
    RunWithinBuffer(flags, bufsiz, decr, loops);
    forall i | 0 <= i < |es| && es[i].Call?
      ensures es[i].bytes * writes <= INT_MAX
    {
      MultiplesOrdered(es[i].bytes, bufsiz + 1, writes);
    }
    CleanRunIff(es, env, writes, functional, |es|);
  }

  // What a call or a chunk loop that went through adds to the results, told from
  // its writes alone: the first two phases report their own pass or failure, a
  // chunk call only an incomplete file with its size and the expected one, and
  // the end of the chunk loop the third pass. With testing off nothing is added.
  lemma ResultsOfEvent(es: seq<Event>, env: nat -> Script, writes: nat, functional: bool, i: nat)
    requires i < |es| && NoAborts(es, env, functional, i + 1) && Plausible(es, env, writes)
    ensures var before, after := Reports(es, env, writes, functional, i), Reports(es, env, writes, functional, i + 1);
            var e, ws := es[i], env(i).writes;
            && (!functional ==> after == before)
            && (functional && e.ChunksDone? ==> after == before + [Pass(3)])
            && (functional && e.Call? && AllFull(ws, e.bytes) ==>
                  after == before + (if e.phase == 3 then [] else [Pass(e.phase)]))
            && (functional && e.Call? && !AllFull(ws, e.bytes) ==>
                  after == before + [if e.phase == 3 then FailSizes(Sum(ws), e.bytes * writes) else Fail(e.phase)])
  {
    var e, s := es[i], env(i);
    assert !Aborts(e, s, functional);
    hide Sum, OutcomeOf;
    if e.Call? {
      ReturnedValue(0, e.bytes, functional, s);
      RetIsOkIff(e, s, functional);
    }
  }

  // ------------------------------------------------------ how many results

  // Events that lead to exactly one result with functional testing on.
  function Slots(es: seq<Event>, n: nat): nat
    requires n <= |es|
  {
    if n == 0 then 0
    else Slots(es, n - 1) + (if es[n - 1].Call? && es[n - 1].phase == 3 then 0 else 1)
  }

  function IncompleteChunks(es: seq<Event>, env: nat -> Script, n: nat): nat
    requires n <= |es|
  {
    if n == 0 then 0
    else
      var e := es[n - 1];
      IncompleteChunks(es, env, n - 1)
      + (if e.Call? && e.phase == 3 && !Complete(e, env(n - 1)) then 1 else 0)
  }

  lemma {:induction false} CountResults(es: seq<Event>, env: nat -> Script, writes: nat, functional: bool, n: nat)
    requires n <= |es| && NoAborts(es, env, functional, n) && Plausible(es, env, writes)
    ensures |Reports(es, env, writes, functional, n)|
         == if functional then Slots(es, n) + IncompleteChunks(es, env, n) else 0
  {
    hide RetOf, Aborts, Complete;
    if n > 0 {
      CountResults(es, env, writes, functional, n - 1);
      RetIsOkIff(es[n - 1], env(n - 1), functional);
    }
  }

  lemma {:induction false} NoIncompleteChunksIff(es: seq<Event>, env: nat -> Script, n: nat)
    requires n <= |es|
    ensures IncompleteChunks(es, env, n) == 0 <==>
              forall i :: 0 <= i < n && es[i].Call? && es[i].phase == 3 ==> Complete(es[i], env(i))
  {
    hide Complete;
    if n > 0 {
      NoIncompleteChunksIff(es, env, n - 1);
    }
  }

  lemma {:induction false} SlotsOfConcat(a: seq<Event>, b: seq<Event>, n: nat)
    requires n <= |a| + |b|
    ensures Slots(a + b, n) == if n <= |a| then Slots(a, n) else Slots(a, |a|) + Slots(b, n - |a|)
  {
    if n > 0 {
      SlotsOfConcat(a, b, n - 1);
    }
  }

  lemma SlotsJoin(a: seq<Event>, b: seq<Event>)
    ensures Slots(a + b, |a + b|) == Slots(a, |a|) + Slots(b, |b|)
  {
    SlotsOfConcat(a, b, |a + b|);
  }

  lemma {:induction false} NoSlotsInChunks(flag: OpenFlags, i: int, decr: nat)
    requires 1 <= decr
    ensures Slots(ChunkEvents(flag, i, decr), |ChunkEvents(flag, i, decr)|) == 0
    decreases i + 1
  {
    if i >= 0 {
      var head, tail := [Call(3, FNAME3, flag, i)], ChunkEvents(flag, i - decr, decr);
      NoSlotsInChunks(flag, i - decr, decr);
      SlotsJoin(head, tail);
    }
  }

  lemma ThreeSlotsPerPass(flag: OpenFlags, bufsiz: nat, decr: nat)
    requires 1 <= decr
    ensures Slots(PassEvents(flag, bufsiz, decr), |PassEvents(flag, bufsiz, decr)|) == 3
  {
    var first, second := [Call(1, FNAME1, flag, bufsiz + 1)], [Call(2, FNAME2, flag, bufsiz)];
    var chunks := ChunkEvents(flag, bufsiz - 1, decr);
    NoSlotsInChunks(flag, bufsiz - 1, decr);
    SlotsJoin(chunks, [ChunksDone]);
    SlotsJoin(second, chunks + [ChunksDone]);
    SlotsJoin(first, second + (chunks + [ChunksDone]));
  }

  lemma {:induction false} SlotsOfSweep(flags: seq<OpenFlags>, bufsiz: nat, decr: nat)
    requires 1 <= decr
    ensures Slots(SweepEvents(flags, bufsiz, decr), |SweepEvents(flags, bufsiz, decr)|) == 3 * |flags|
  {
    if flags != [] {
      var head, tail := PassEvents(flags[0], bufsiz, decr), SweepEvents(flags[1..], bufsiz, decr);
      ThreeSlotsPerPass(flags[0], bufsiz, decr);
      SlotsOfSweep(flags[1..], bufsiz, decr);
      SlotsJoin(head, tail);
    }
  }

  lemma OneMore(n: nat, m: nat)
    requires 1 <= n
    ensures n * m == m + (n - 1) * m
  {
  }

  lemma NoEventsNoSlots()
    ensures Slots([], 0) == 0
  {
  }

  lemma {:induction false} SlotsOfRun(flags: seq<OpenFlags>, bufsiz: nat, decr: nat, loops: nat, total: nat)
    requires 1 <= decr && total == 3 * |flags|
    ensures Slots(RunEvents(flags, bufsiz, decr, loops), |RunEvents(flags, bufsiz, decr, loops)|)
         == loops * total
  {
    hide SweepEvents, Slots;
    if loops == 0 {
      NoEventsNoSlots();
    } else {
      var head, tail := SweepEvents(flags, bufsiz, decr), RunEvents(flags, bufsiz, decr, loops - 1);
      SlotsOfSweep(flags, bufsiz, decr);
      SlotsOfRun(flags, bufsiz, decr, loops - 1, total);
      SlotsJoin(head, tail);
      OneMore(loops, total);
    }
  }

  // TST_TOTAL announces 3 results per open flag. With functional testing on,
  // each iteration reports that many, plus one for every incomplete chunk call,
  // so the announced total is exact exactly when no chunk call was incomplete.
  // With it off, a run that is not ended early reports nothing.
  lemma ResultsOfMain(flags: seq<OpenFlags>, bufsiz: nat, decr: nat, loops: nat,
                      env: nat -> Script, writes: nat, functional: bool)
    requires 1 <= decr
    requires Plausible(RunEvents(flags, bufsiz, decr, loops), env, writes)
    requires var es := RunEvents(flags, bufsiz, decr, loops); NoAborts(es, env, functional, |es|)
    ensures var es := RunEvents(flags, bufsiz, decr, loops);
            |Reports(es, env, writes, functional, |es|)|
            == if functional then loops * (3 * |flags|) + IncompleteChunks(es, env, |es|) else 0
    ensures var es := RunEvents(flags, bufsiz, decr, loops);
            functional ==>
              (|Reports(es, env, writes, functional, |es|)| == loops * (3 * |flags|) <==>
                forall i :: 0 <= i < |es| && es[i].Call? && es[i].phase == 3 ==> Complete(es[i], env(i)))
  {
    var es := RunEvents(flags, bufsiz, decr, loops);
    NoIncompleteChunksIff(es, env, |es|);
    CountResults(es, env, writes, functional, |es|);
    SlotsOfRun(flags, bufsiz, decr, loops, 3 * |flags|);
  }

  // -------------------------------------------------- the third TPASS

  function ChunkLoops(es: seq<Event>, n: nat): nat
    requires n <= |es|
  {
    if n == 0 then 0 else ChunkLoops(es, n - 1) + (if es[n - 1].ChunksDone? then 1 else 0)
  }

  lemma OccurrencesAdd(a: seq<Report>, b: seq<Report>, r: Report)
    ensures multiset(a + b)[r] == multiset(a)[r] + multiset(b)[r]
  {
  }

  lemma ThirdPassOf(e: Event, ret: int, writes: nat, functional: bool)
    ensures var report := ReportOf(e, ret, writes, functional);
            multiset(report)[Pass(3)] == if functional && e.ChunksDone? then 1 else 0
  {
  }

  // The flag behind the third TPASS is set and never cleared, so with functional
  // testing on that result is reported once per chunk loop, whatever the calls in
  // the loop returned; with it off, never.
  lemma {:induction false} ThirdPassAlways(es: seq<Event>, env: nat -> Script, writes: nat, functional: bool, n: nat)
    requires n <= |es|
    ensures multiset(Reports(es, env, writes, functional, n))[Pass(3)] == if functional then ChunkLoops(es, n) else 0
  {
    hide ReportOf, RetOf;
    if n > 0 {
      var before := Reports(es, env, writes, functional, n - 1);
      var ret := RetOf(es[n - 1], env(n - 1), functional);
      var last := ReportOf(es[n - 1], ret, writes, functional);
      ThirdPassAlways(es, env, writes, functional, n - 1);
      ThirdPassOf(es[n - 1], ret, writes, functional);
      OccurrencesAdd(before, last, Pass(3));
    }
  }
}
