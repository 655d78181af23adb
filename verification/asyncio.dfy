// asyncio02: testrun() writes a buffer several times, closes, and compares the
// file's size with the bytes it meant to write; main() calls it for chunks larger
// than, equal to, and in steps smaller than BUFSIZ.
module AsyncIo {
  import opened Arithmetic
  import opened AsyncIoKernel

  const OK: int := -1
  const FNAME1 := "aio02.1"
  const FNAME2 := "aio02.2"
  const FNAME3 := "aio02.3"

  // The kernel's answers during one call of testrun.
  datatype Script = Script(fd: int, writes: seq<int>, closes: bool, stats: bool, unlinks: bool)

  // tst_brkm ends the program at the call that failed.
  datatype Outcome = Returned(ret: int) | OpenFailed | WriteFailed | CloseFailed | StatFailed | UnlinkFailed

  // ---------------------------------------------------------------- one call

  function Sum(ws: seq<int>): int {
    if ws == [] then 0 else Sum(ws[..|ws| - 1]) + ws[|ws| - 1]
  }

  predicate EachWithin(ws: seq<int>, lo: int, hi: int) {
    forall i :: 0 <= i < |ws| ==> lo <= ws[i] <= hi
  }

  predicate AllFull(ws: seq<int>, bytes: int) {
    forall i :: 0 <= i < |ws| ==> ws[i] == bytes
  }

  // What the size check returns for a file of this final size.
  function SizeCheck(size: nat, expected: nat): int {
    if size == expected then OK else ToInt(size)
  }

  // The outcome of testrun on a file that has size `initial` after open.
  function OutcomeOf(initial: nat, bytes: nat, functional: bool, s: Script): Outcome {
    if s.fd == -1 then OpenFailed
    else if -1 in s.writes then WriteFailed
    else if !s.closes then CloseFailed
    else if functional && !s.stats then StatFailed
    else if !s.unlinks then UnlinkFailed
    else if !functional then Returned(OK)
    else Returned(SizeCheck(Max(initial, Sum(s.writes)), bytes * |s.writes|))
  }

  // The answers a kernel in this state can give.
  predicate Possible(s: Script, name: string, flag: OpenFlags, bytes: nat, writes: nat,
                     sizes: map<string, nat>, fds: map<int, Descriptor>)
  {
    && (s.fd != -1 ==> s.fd !in fds && (name in sizes || flag.create))
    && |s.writes| == writes
    && EachWithin(s.writes, -1, bytes)
  }

  lemma SumGrows(ws: seq<int>, i: nat)
    requires i < |ws|
    ensures Sum(ws[..i + 1]) == Sum(ws[..i]) + ws[i]
  {
    assert ws[..i + 1][..i] == ws[..i];
  }

  // ------------------------------------------- what the size check establishes

  lemma {:induction false} SumIsFullIff(ws: seq<int>, bytes: nat)
    requires EachWithin(ws, 0, bytes)
    ensures 0 <= Sum(ws) <= bytes * |ws|
    ensures Sum(ws) == bytes * |ws| <==> AllFull(ws, bytes)
  {
    if ws != [] {
      var n := |ws| - 1;
      SumIsFullIff(ws[..n], bytes);
      assert bytes * |ws| == bytes * n + bytes;
      if AllFull(ws[..n], bytes) && ws[n] == bytes {
        assert forall i :: 0 <= i < n ==> ws[i] == ws[..n][i];
      }
    }
  }

  // For a file of any size after open, the check passes exactly when it already
  // had the expected size, or was not longer and every write was full, or was
  // longer by a size that an int confuses with OK.
  lemma SizeCheckIff(initial: nat, ws: seq<int>, bytes: nat)
    requires EachWithin(ws, 0, bytes)
    requires bytes * |ws| <= INT_MAX
    ensures SizeCheck(Max(initial, Sum(ws)), bytes * |ws|) == OK <==>
              || initial == bytes * |ws|
              || (initial < bytes * |ws| && AllFull(ws, bytes))
              || (initial > bytes * |ws| && (initial + 1) % INT_RANGE == 0)
  {
    hide Sum;
    SumIsFullIff(ws, bytes);
  }

  // The flags used, on a name that is absent: the check passes exactly when
  // every write was full, and otherwise returns the actual size.
  lemma SizeCheckMeansComplete(ws: seq<int>, bytes: nat)
    requires EachWithin(ws, 0, bytes)
    requires bytes * |ws| <= INT_MAX
    ensures var ret := SizeCheck(Max(0, Sum(ws)), bytes * |ws|);
            && (ret == OK <==> AllFull(ws, bytes))
            && (ret != OK ==> ret == Sum(ws))
  {
    SumIsFullIff(ws, bytes);
    SizeCheckIff(0, ws, bytes);
  }

  // testrun returns exactly when every call it made succeeded; otherwise its
  // outcome names the first one that failed.
  lemma OutcomeNamesFirstFailure(initial: nat, bytes: nat, functional: bool, s: Script)
    ensures var r := OutcomeOf(initial, bytes, functional, s);
            var wrote := forall i :: 0 <= i < |s.writes| ==> s.writes[i] != -1;
            && (r.OpenFailed? <==> s.fd == -1)
            && (r.WriteFailed? <==> s.fd != -1 && !wrote)
            && (r.CloseFailed? <==> s.fd != -1 && wrote && !s.closes)
            && (r.StatFailed? <==> s.fd != -1 && wrote && s.closes && functional && !s.stats)
            && (r.UnlinkFailed? <==> s.fd != -1 && wrote && s.closes && (functional ==> s.stats) && !s.unlinks)
            && (r.Returned? <==> s.fd != -1 && wrote && s.closes && (functional ==> s.stats) && s.unlinks)
  {
    hide SizeCheck, Sum;
  }

  // What testrun returns: OK with functional testing off; otherwise OK or the
  // low 32 bits of the final size, and OK when that size is the expected one. On
  // a file that was absent or truncated it returns OK when every write was full
  // and else the bytes written.
  lemma ReturnedValue(initial: nat, bytes: nat, functional: bool, s: Script)
    requires EachWithin(s.writes, -1, bytes)
    requires bytes * |s.writes| <= INT_MAX
    requires OutcomeOf(initial, bytes, functional, s).Returned?
    ensures var ret, size := OutcomeOf(initial, bytes, functional, s).ret, Max(initial, Sum(s.writes));
            && (!functional ==> ret == OK)
            && (functional && size == bytes * |s.writes| ==> ret == OK)
            && (functional && size != bytes * |s.writes| ==>
                  -INT_MAX - 1 <= ret <= INT_MAX && (ret - size) % INT_RANGE == 0)
            && (functional && initial == 0 ==> ret == if AllFull(s.writes, bytes) then OK else Sum(s.writes))
  {
    hide Sum;
    OutcomeNamesFirstFailure(initial, bytes, functional, s);
    assert EachWithin(s.writes, 0, bytes);
    SumIsFullIff(s.writes, bytes);
    SizeCheckMeansComplete(s.writes, bytes);
  }

  // Returning the size as an int confuses it with OK for every size that is
  // one short of a multiple of 2^32, the expected size aside.
  lemma SizeCollidesIff(size: nat, expected: nat)
    requires size != expected
    ensures SizeCheck(size, expected) == OK <==> (size + 1) % INT_RANGE == 0
  {
  }

  // --------------------------------------------------------------- whole runs

  // What main() does, in order: a call of testrun in one of its three phases, or
  // the report that closes the third phase.
  datatype Event = Call(phase: nat, name: string, flag: OpenFlags, bytes: nat) | ChunksDone

  datatype Report = Pass(phase: nat) | Fail(phase: nat) | FailSizes(ret: int, expected: int)

  function Runs(r: Outcome): int {
    if r.Returned? then r.ret else OK
  }

  function ChunkEvents(flag: OpenFlags, i: int, decr: nat): seq<Event>
    requires 1 <= decr
    decreases i + 1
  {
    if i < 0 then [] else [Call(3, FNAME3, flag, i)] + ChunkEvents(flag, i - decr, decr)
  }

  function PassEvents(flag: OpenFlags, bufsiz: nat, decr: nat): seq<Event>
    requires 1 <= decr
  {
    [Call(1, FNAME1, flag, bufsiz + 1)] + ([Call(2, FNAME2, flag, bufsiz)]
    + (ChunkEvents(flag, bufsiz - 1, decr) + [ChunksDone]))
  }

  function SweepEvents(flags: seq<OpenFlags>, bufsiz: nat, decr: nat): seq<Event>
    requires 1 <= decr
  {
    if flags == [] then []
    else PassEvents(flags[0], bufsiz, decr) + SweepEvents(flags[1..], bufsiz, decr)
  }

  function RunEvents(flags: seq<OpenFlags>, bufsiz: nat, decr: nat, loops: nat): seq<Event>
    requires 1 <= decr
  {
    if loops == 0 then []
    else SweepEvents(flags, bufsiz, decr) + RunEvents(flags, bufsiz, decr, loops - 1)
  }

  // The report of one event when testrun returned ret.
  function ReportOf(e: Event, ret: int, writes: nat, functional: bool): seq<Report> {
    match e
    case Call(phase, _, _, bytes) =>
      if ret != OK then (if phase == 3 then [FailSizes(ret, bytes * writes)] else [Fail(phase)])
      else if functional && phase != 3 then [Pass(phase)]
      else []
    case ChunksDone =>
      if functional then [Pass(3)] else []
  }

  // What testrun returns at an event, on a file that was absent.
  function RetOf(e: Event, s: Script, functional: bool): int {
    if e.ChunksDone? then OK else Runs(OutcomeOf(0, e.bytes, functional, s))
  }

  // The kernel's answer to this event makes testrun end the program.
  predicate Aborts(e: Event, s: Script, functional: bool) {
    e.Call? && !OutcomeOf(0, e.bytes, functional, s).Returned?
  }

  // The reports of the first n events; the kernel answers event i with env(i).
  function Reports(es: seq<Event>, env: nat -> Script, writes: nat, functional: bool, n: nat): seq<Report>
    requires n <= |es|
  {
    if n == 0 then []
    else
      var ret := RetOf(es[n - 1], env(n - 1), functional);
      Reports(es, env, writes, functional, n - 1) + ReportOf(es[n - 1], ret, writes, functional)
  }

  predicate NoAborts(es: seq<Event>, env: nat -> Script, functional: bool, n: nat)
    requires n <= |es|
  {
    forall i :: 0 <= i < n ==> !Aborts(es[i], env(i), functional)
  }

  // Every call among these events gets an answer the kernel can give.
  predicate AllPossible(es: seq<Event>, env: nat -> Script, writes: nat,
                        sizes: map<string, nat>, fds: map<int, Descriptor>)
  {
    forall i :: 0 <= i < |es| && es[i].Call? ==>
      Possible(env(i), es[i].name, es[i].flag, es[i].bytes, writes, sizes, fds)
  }
}
