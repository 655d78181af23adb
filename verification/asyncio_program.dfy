// asyncio02 as a program: testrun() and main(), driving the kernel.
module AsyncIoProgram {
  import opened Arithmetic
  import opened AsyncIoKernel
  import opened AsyncIo
  import opened AsyncIoVerdict

  lemma OneMoreEvent(es: seq<Event>, env: nat -> Script, writes: nat, functional: bool, n: nat, ret: int)
    requires n < |es| && NoAborts(es, env, functional, n)
    requires !Aborts(es[n], env(n), functional)
    requires ret == RetOf(es[n], env(n), functional)
    ensures Reports(es, env, writes, functional, n + 1)
         == Reports(es, env, writes, functional, n) + ReportOf(es[n], ret, writes, functional)
    ensures NoAborts(es, env, functional, n + 1)
  {
  }

  lemma PassSplit(flag: OpenFlags, bufsiz: nat, decr: nat, rest: seq<Event>)
    requires 1 <= decr
    ensures PassEvents(flag, bufsiz, decr) + rest
         == [Call(1, FNAME1, flag, bufsiz + 1)] + ([Call(2, FNAME2, flag, bufsiz)]
            + (ChunkEvents(flag, bufsiz - 1, decr) + ([ChunksDone] + rest)))
  {
  }

  lemma SweepSplit(flags: seq<OpenFlags>, c: nat, bufsiz: nat, decr: nat, rest: seq<Event>)
    requires 1 <= decr && c < |flags|
    ensures SweepEvents(flags[c..], bufsiz, decr) + rest
         == PassEvents(flags[c], bufsiz, decr) + (SweepEvents(flags[c + 1..], bufsiz, decr) + rest)
  {
    assert flags[c..][1..] == flags[c + 1..];
  }

  lemma SweepDone(flags: seq<OpenFlags>, bufsiz: nat, decr: nat, rest: seq<Event>)
    requires 1 <= decr
    ensures SweepEvents(flags[|flags|..], bufsiz, decr) + rest == rest
  {
  }

  lemma RunSplit(flags: seq<OpenFlags>, bufsiz: nat, decr: nat, loops: nat)
    requires 1 <= decr && 1 <= loops
    ensures RunEvents(flags, bufsiz, decr, loops)
         == SweepEvents(flags[0..], bufsiz, decr) + RunEvents(flags, bufsiz, decr, loops - 1)
  {
    assert flags[0..] == flags;
  }

  lemma RunDone(flags: seq<OpenFlags>, bufsiz: nat, decr: nat)
    requires 1 <= decr
    ensures RunEvents(flags, bufsiz, decr, 0) == []
  {
  }

  lemma TakeOne(es: seq<Event>, n: nat, e: Event, rest: seq<Event>)
    requires n <= |es|
    requires es[n..] == [e] + rest
    ensures n < |es| && es[n] == e && es[n + 1..] == rest
  {
    assert es[n] == es[n..][0];
    assert es[n + 1..] == es[n..][1..];
  }

  class AsyncTest {
    const k: Kernel
    const bufsiz: nat
    const decr: nat
    const writes: nat
    const functional: bool        // STD_FUNCTIONAL_TEST
    const env: nat -> Script
    var filename: string
    var step: nat                 // events so far
    var log: seq<Report>

    constructor (k: Kernel, bufsiz: nat, decr: nat, writes: nat, functional: bool, env: nat -> Script)
      ensures this.k == k && this.bufsiz == bufsiz && this.decr == decr && this.writes == writes
      ensures this.functional == functional && this.env == env
      ensures step == 0 && log == []
    {
      this.k, this.bufsiz, this.decr, this.writes := k, bufsiz, decr, writes;
      this.functional, this.env := functional, env;
      filename, step, log := "", 0, [];
    }

    // What the source demands: 10 chunks of any size used fit an int.
    ghost predicate Sized() {
      1 <= bufsiz && 1 <= decr && (bufsiz + 1) * writes <= INT_MAX
    }

    ghost predicate Answered(es: seq<Event>)
      reads k
    {
      AllPossible(es, env, writes, k.sizes, k.fds)
    }

    ghost predicate NamesAbsent()
      reads k
    {
      FNAME1 !in k.sizes && FNAME2 !in k.sizes && FNAME3 !in k.sizes
    }

    // The first events of es are over, and none of them ended the program.
    ghost predicate Following(es: seq<Event>)
      reads this
    {
      && step <= |es|
      && log == Reports(es, env, writes, functional, step)
      && NoAborts(es, env, functional, step)
    }

    // The next event of es ends the program.
    ghost predicate StoppedIn(es: seq<Event>)
      reads this
    {
      Following(es) && step < |es| && Aborts(es[step], env(step), functional)
    }

    lemma NothingHappened(es: seq<Event>)
      requires step == 0 && log == []
      ensures Following(es)
    {
    }

    // The write loop of testrun.
    method WriteAll(fildes: int, bytes: nat) returns (ok: bool)
      requires |env(step).writes| == writes && EachWithin(env(step).writes, -1, bytes)
      requires fildes in k.fds && k.fds[fildes] == Descriptor(filename, 0) && filename in k.sizes
      modifies k
      ensures ok <==> -1 !in env(step).writes
      ensures ok ==> 0 <= Sum(env(step).writes)
      ensures ok ==> k.sizes == old(k.sizes)[filename := Max(old(k.sizes)[filename], Sum(env(step).writes))]
      ensures k.sizes - {filename} == old(k.sizes) - {filename}
      ensures k.fds - {fildes} == old(k.fds) - {fildes} && fildes in k.fds && filename in k.sizes
    {
      ghost var ws, initial := env(step).writes, k.sizes[filename];
      var i := 0;
      while i < writes
        invariant 0 <= i <= writes
        invariant -1 !in ws[..i]
        invariant 0 <= Sum(ws[..i])
        invariant k.fds == old(k.fds)[fildes := Descriptor(filename, Sum(ws[..i]))]
        invariant k.sizes == old(k.sizes)[filename := Max(initial, Sum(ws[..i]))]
      {
        SumGrows(ws, i);
        var ret := k.Write(fildes, bytes, env(step).writes[i]);
        if ret == -1 {
          return false;
        }
        i := i + 1;
      }
      assert ws[..i] == ws;
      return true;
    }

    method TestRun(flag: OpenFlags, bytes: nat) returns (r: Outcome)
      requires Possible(env(step), filename, flag, bytes, writes, k.sizes, k.fds)
      requires bytes * writes <= INT_MAX
      modifies k
      ensures r == OutcomeOf(SizeWhenOpened(old(k.sizes), filename, flag), bytes, functional, env(step))
      ensures r.Returned? ==> k.sizes == old(k.sizes) - {filename} && k.fds == old(k.fds)
      ensures k.sizes - {filename} == old(k.sizes) - {filename}
      ensures k.fds - {env(step).fd} == old(k.fds) - {env(step).fd}
    {
      hide Sum, ToInt;
      var fildes := k.Open(filename, flag, env(step).fd);
      if fildes == -1 {
        return OpenFailed;
      }
      var written := WriteAll(fildes, bytes);
      if !written {
        return WriteFailed;
      }
      var closed := k.Close(fildes, env(step).closes);
      if closed == -1 {
        return CloseFailed;
      }
      assert k.fds == old(k.fds);
      var ret := OK;
      if functional {
        var stated, size := k.Stat(filename, env(step).stats);
        if stated == -1 {
          return StatFailed;
        }
        if size != bytes * writes {
          ret := ToInt(size);
        }
      }
      var unlinked := k.Unlink(filename, env(step).unlinks);
      if unlinked == -1 {
        return UnlinkFailed;
      }
      return Returned(ret);
    }

    // main()'s use of testrun: name the file, call, and report the result.
    method Attempt(phase: nat, name: string, flag: OpenFlags, bytes: nat, ghost es: seq<Event>)
      returns (ok: bool)
      requires Following(es) && Answered(es)
      requires step < |es| && es[step] == Call(phase, name, flag, bytes)
      requires name !in k.sizes && bytes * writes <= INT_MAX
      modifies this, k
      ensures ok ==> Following(es) && step == old(step) + 1
      ensures ok ==> k.sizes == old(k.sizes) && k.fds == old(k.fds)
      ensures !ok ==> StoppedIn(es)
    {
      hide Reports, NoAborts;
      filename := name;
      var r := TestRun(flag, bytes);
      if !r.Returned? {
        return false;
      }
      assert k.sizes == old(k.sizes);
      OneMoreEvent(es, env, writes, functional, step, r.ret);
      if r.ret != OK {
        log := log + (if phase == 3 then [FailSizes(r.ret, bytes * writes)] else [Fail(phase)]);
      } else if functional && phase != 3 {
        log := log + [Pass(phase)];
      }
      step := step + 1;
      return true;
    }

    // The result reported once the chunks are through, whatever they returned.
    method ReportChunks(ghost es: seq<Event>)
      requires Following(es) && step < |es| && es[step] == ChunksDone
      modifies this
      ensures Following(es) && step == old(step) + 1
    {
      hide Reports, NoAborts;
      OneMoreEvent(es, env, writes, functional, step, OK);
      if functional {
        log := log + [Pass(3)];
      }
      step := step + 1;
    }

    // The loop over shrinking chunks.
    method RunChunks(flag: OpenFlags, ghost es: seq<Event>, ghost rest: seq<Event>) returns (ok: bool)
      requires Sized() && NamesAbsent()
      requires Following(es) && Answered(es)
      requires es[step..] == ChunkEvents(flag, bufsiz - 1, decr) + rest
      modifies this, k
      ensures ok ==> Following(es) && es[step..] == rest
      ensures ok ==> k.sizes == old(k.sizes) && k.fds == old(k.fds)
      ensures !ok ==> StoppedIn(es)
    {
      hide Reports, NoAborts, AllPossible, Aborts;
      var i := bufsiz - 1;
      while i >= 0
        invariant i < bufsiz
        invariant Following(es)
        invariant es[step..] == ChunkEvents(flag, i, decr) + rest
        invariant k.sizes == old(k.sizes) && k.fds == old(k.fds)
        decreases i + 1
      {
        TakeOne(es, step, Call(3, FNAME3, flag, i), ChunkEvents(flag, i - decr, decr) + rest);
        MultiplesOrdered(i, bufsiz + 1, writes);
        ok := Attempt(3, FNAME3, flag, i, es);
        if !ok {
          return;
        }
        i := i - decr;
      }
      return true;
    }

    // The body of the loop over open flags.
    method RunFlag(flag: OpenFlags, ghost es: seq<Event>, ghost rest: seq<Event>) returns (ok: bool)
      requires Sized() && NamesAbsent()
      requires Following(es) && Answered(es)
      requires es[step..] == PassEvents(flag, bufsiz, decr) + rest
      modifies this, k
      ensures ok ==> Following(es) && es[step..] == rest
      ensures ok ==> k.sizes == old(k.sizes) && k.fds == old(k.fds)
      ensures !ok ==> StoppedIn(es)
    {
      hide Reports, NoAborts, AllPossible, Aborts;
      ghost var chunks := ChunkEvents(flag, bufsiz - 1, decr) + ([ChunksDone] + rest);
      PassSplit(flag, bufsiz, decr, rest);
      TakeOne(es, step, Call(1, FNAME1, flag, bufsiz + 1), [Call(2, FNAME2, flag, bufsiz)] + chunks);
      ok := Attempt(1, FNAME1, flag, bufsiz + 1, es);
      if !ok {
        return;
      }
      TakeOne(es, step, Call(2, FNAME2, flag, bufsiz), chunks);
      MultiplesOrdered(bufsiz, bufsiz + 1, writes);
      ok := Attempt(2, FNAME2, flag, bufsiz, es);
      if !ok {
        return;
      }
      ok := RunChunks(flag, es, [ChunksDone] + rest);
      if !ok {
        return;
      }
      ghost var n := step;
      TakeOne(es, n, ChunksDone, rest);
      ReportChunks(es);
      assert step == n + 1;
    }

    // One iteration of main()'s outer loop: every open flag in turn.
    method RunSweep(flags: seq<OpenFlags>, ghost es: seq<Event>, ghost rest: seq<Event>) returns (ok: bool)
      requires Sized() && NamesAbsent()
      requires Following(es) && Answered(es)
      requires es[step..] == SweepEvents(flags[0..], bufsiz, decr) + rest
      modifies this, k
      ensures ok ==> Following(es) && es[step..] == rest
      ensures ok ==> k.sizes == old(k.sizes) && k.fds == old(k.fds)
      ensures !ok ==> StoppedIn(es)
    {
      hide Reports, NoAborts, AllPossible, Aborts, SweepEvents, PassEvents;
      var flagCnt := 0;
      while flagCnt < |flags|
        invariant 0 <= flagCnt <= |flags|
        invariant Following(es)
        invariant es[step..] == SweepEvents(flags[flagCnt..], bufsiz, decr) + rest
        invariant k.sizes == old(k.sizes) && k.fds == old(k.fds)
      {
        SweepSplit(flags, flagCnt, bufsiz, decr, rest);
        ok := RunFlag(flags[flagCnt], es, SweepEvents(flags[flagCnt + 1..], bufsiz, decr) + rest);
        if !ok {
          return;
        }
        flagCnt := flagCnt + 1;
      }
      SweepDone(flags, bufsiz, decr, rest);
      return true;
    }

    // main(): as many iterations as asked.
    method Run(flags: seq<OpenFlags>, loops: nat) returns (ok: bool)
      requires Sized() && NamesAbsent()
      requires step == 0 && log == []
      requires Answered(RunEvents(flags, bufsiz, decr, loops))
      modifies this, k
      ensures ok ==> step == |RunEvents(flags, bufsiz, decr, loops)|
      ensures ok ==> Following(RunEvents(flags, bufsiz, decr, loops))
      ensures ok ==>
                var es := RunEvents(flags, bufsiz, decr, loops);
                (Clean(log) <==> !functional || forall i :: 0 <= i < |es| ==> Complete(es[i], env(i)))
      ensures ok ==> k.sizes == old(k.sizes) && k.fds == old(k.fds)
      ensures !ok ==> StoppedIn(RunEvents(flags, bufsiz, decr, loops))
    {
      hide Reports, NoAborts, AllPossible, Aborts, RunEvents, SweepEvents, Clean, Complete;
      ghost var es := RunEvents(flags, bufsiz, decr, loops);
      NothingHappened(es);
      var lc := 0;
      while lc < loops
        invariant 0 <= lc <= loops
        invariant Following(es)
        invariant es[step..] == RunEvents(flags, bufsiz, decr, loops - lc)
        invariant k.sizes == old(k.sizes) && k.fds == old(k.fds)
      {
        RunSplit(flags, bufsiz, decr, loops - lc);
        ok := RunSweep(flags, es, RunEvents(flags, bufsiz, decr, loops - lc - 1));
        if !ok {
          return;
        }
        lc := lc + 1;
      }
      RunDone(flags, bufsiz, decr);
      CleanMainIff(flags, bufsiz, decr, loops, env, writes, functional, k.sizes, k.fds);
      return true;
    }
  }
}
