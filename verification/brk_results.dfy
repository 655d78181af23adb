// What brk01 reports. Every iteration adds at most one result; the lemmas say
// what a log of such results establishes about the kernel.
module BrkResults {
  import opened Arithmetic
  import opened BrkWalk

  // What one brk(2) call returned, and where sbrk(0) saw the break afterwards.
  datatype Reply = Reply(ret: int, after: int)

  // The three results the loop can report.
  datatype Report =
    | Verified(request: int, ret: int)
    | CallFailed(request: int, before: int, after: int)
    | WrongSize(request: int, ret: int, before: int, after: int)

  // The break that iteration n finds.
  function Seen(p: Plan, replies: seq<Reply>, n: nat): int
    requires n <= |replies|
  {
    if n == 0 then p.beg else replies[n - 1].after
  }

  function ReportOf(p: Plan, functional: bool, lc: nat, cur: int, reply: Reply): seq<Report> {
    var request := Request(p, lc, cur);
    if reply.ret == -1 then [CallFailed(request, cur, reply.after)]
    else if !functional then []
    else if reply.after == request then [Verified(request, reply.ret)]
    else [WrongSize(request, reply.ret, cur, reply.after)]
  }

  function Reports(p: Plan, functional: bool, replies: seq<Reply>, n: nat): seq<Report>
    requires n <= |replies|
  {
    if n == 0 then []
    else
      Reports(p, functional, replies, n - 1)
      + ReportOf(p, functional, n - 1, Seen(p, replies, n - 1), replies[n - 1])
  }

  lemma {:induction false} ReportsOfPrefix(p: Plan, functional: bool, replies: seq<Reply>, reply: Reply, n: nat)
    requires n <= |replies|
    ensures Reports(p, functional, replies + [reply], n) == Reports(p, functional, replies, n)
  {
    if n > 0 {
      ReportsOfPrefix(p, functional, replies, reply, n - 1);
    }
  }

  lemma ReportsGrow(p: Plan, functional: bool, replies: seq<Reply>, reply: Reply)
    ensures var n := |replies|;
            && Seen(p, replies + [reply], n + 1) == reply.after
            && Reports(p, functional, replies + [reply], n + 1)
               == Reports(p, functional, replies, n) + ReportOf(p, functional, n, Seen(p, replies, n), reply)
  {
    var n, longer := |replies|, replies + [reply];
    ReportsOfPrefix(p, functional, replies, reply, n);
    assert longer[n] == reply && Seen(p, longer, n) == Seen(p, replies, n);
  }

  // --------------------------------------------------------- what the log holds

  // With functional testing on there is one result per iteration, in order. It
  // carries the value handed to brk(2) and what the kernel answered, and it is
  // CallFailed when the call failed, Verified when the break seen afterwards is
  // the one asked for, and WrongSize otherwise.
  lemma {:induction false} LogEntries(p: Plan, replies: seq<Reply>, n: nat)
    requires n <= |replies|
    ensures |Reports(p, true, replies, n)| == n
    ensures forall i :: 0 <= i < n ==>
              var r, request := Reports(p, true, replies, n)[i], Request(p, i, Seen(p, replies, i));
              && r.request == request
              && (r.CallFailed? <==> replies[i].ret == -1)
              && (r.Verified? <==> replies[i].ret != -1 && replies[i].after == request)
              && (!r.CallFailed? ==> r.ret == replies[i].ret)
              && (!r.Verified? ==> r.before == Seen(p, replies, i) && r.after == replies[i].after)
  {
    hide ReportOf, Request;
    if n > 0 {
      LogEntries(p, replies, n - 1);
      LogEntry(p, n - 1, Seen(p, replies, n - 1), replies[n - 1]);
      var before := Reports(p, true, replies, n - 1);
      assert forall i :: 0 <= i < n - 1 ==> Reports(p, true, replies, n)[i] == before[i];
    }
  }

  lemma OneResultEach(p: Plan, replies: seq<Reply>, n: nat)
    requires n <= |replies|
    ensures |Reports(p, true, replies, n)| == n
  {
    LogEntries(p, replies, n);
  }

  lemma LogEntry(p: Plan, lc: nat, cur: int, reply: Reply)
    ensures |ReportOf(p, true, lc, cur, reply)| == 1
    ensures var r, request := ReportOf(p, true, lc, cur, reply)[0], Request(p, lc, cur);
            && r.request == request
            && (r.CallFailed? <==> reply.ret == -1)
            && (r.Verified? <==> reply.ret != -1 && reply.after == request)
            && (!r.CallFailed? ==> r.ret == reply.ret)
            && (!r.Verified? ==> r.before == cur && r.after == reply.after)
  {
  }

  function OnlyCallsFailed(log: seq<Report>): seq<Report> {
    if log == [] then []
    else
      var n := |log| - 1;
      OnlyCallsFailed(log[..n]) + (if log[n].CallFailed? then [log[n]] else [])
  }

  // With functional testing off the log is the same one, kept to its failed calls.
  lemma {:induction false} LogWithoutTesting(p: Plan, replies: seq<Reply>, n: nat)
    requires n <= |replies|
    ensures Reports(p, false, replies, n) == OnlyCallsFailed(Reports(p, true, replies, n))
  {
    hide Request;
    if n > 0 {
      LogWithoutTesting(p, replies, n - 1);
      var cur := Seen(p, replies, n - 1);
      LogEntry(p, n - 1, cur, replies[n - 1]);
      var before, last := Reports(p, true, replies, n - 1), ReportOf(p, true, n - 1, cur, replies[n - 1]);
      assert (before + last)[..|before|] == before;
      assert (before + last)[|before|] == last[0];
    }
  }

  // ------------------------------------------------ what the results establish

  predicate NoFail(log: seq<Report>) {
    forall i :: 0 <= i < |log| ==> log[i].Verified?
  }

  // The kernel behaved: a successful call moved the break where it was asked
  // to, a failed one left it alone.
  predicate Honest(p: Plan, replies: seq<Reply>) {
    forall i {:trigger replies[i]} :: 0 <= i < |replies| ==>
      replies[i].after ==
        if replies[i].ret == -1 then Seen(p, replies, i) else Request(p, i, Seen(p, replies, i))
  }

  function Successes(replies: seq<Reply>): seq<bool> {
    seq(|replies|, i requires 0 <= i < |replies| => replies[i].ret != -1)
  }

  lemma {:induction false} HonestRunWalks(p: Plan, replies: seq<Reply>, n: nat)
    requires Honest(p, replies) && n <= |replies|
    ensures Seen(p, replies, n) == BreakAt(p, Successes(replies), n)
  {
    if n > 0 {
      HonestRunWalks(p, replies, n - 1);
      assert replies[n - 1].after == Seen(p, replies, n);
    }
  }

  lemma NoFailAppend(a: seq<Report>, b: seq<Report>)
    ensures NoFail(a + b) <==> NoFail(a) && NoFail(b)
  {
    if NoFail(a + b) {
      assert forall i :: 0 <= i < |a| ==> a[i] == (a + b)[i];
      assert forall i :: 0 <= i < |b| ==> b[i] == (a + b)[|a| + i];
    }
  }

  // One iteration reports no failure exactly when its call succeeded and, if
  // the size is looked at, moved the break where it was asked to.
  lemma CleanReportIff(p: Plan, functional: bool, lc: nat, cur: int, reply: Reply)
    ensures NoFail(ReportOf(p, functional, lc, cur, reply)) <==>
              reply.ret != -1 && (functional ==> reply.after == Request(p, lc, cur))
  {
    var last := ReportOf(p, functional, lc, cur, reply);
    assert last != [] ==> (NoFail(last) <==> last[0].Verified?);
  }

  // An honest kernel is never reported for a wrong size.
  lemma {:induction false} NeverWrongSize(p: Plan, functional: bool, replies: seq<Reply>, n: nat)
    requires Honest(p, replies) && n <= |replies|
    ensures forall r :: r in Reports(p, functional, replies, n) ==> !r.WrongSize?
  {
    if n > 0 {
      NeverWrongSize(p, functional, replies, n - 1);
      var reply := replies[n - 1];
      assert forall r :: r in ReportOf(p, functional, n - 1, Seen(p, replies, n - 1), reply) ==> !r.WrongSize?;
    }
  }

  // With an honest kernel the failures in the log are the calls that failed.
  lemma {:induction false} HonestReports(p: Plan, functional: bool, replies: seq<Reply>, n: nat)
    requires Honest(p, replies) && n <= |replies|
    ensures NoFail(Reports(p, functional, replies, n)) <==> forall i :: 0 <= i < n ==> replies[i].ret != -1
  {
    hide ReportOf, Request;
    if n > 0 {
      var reply, cur := replies[n - 1], Seen(p, replies, n - 1);
      assert reply.ret != -1 ==> reply.after == Request(p, n - 1, cur);
      HonestReports(p, functional, replies, n - 1);
      CleanReportIff(p, functional, n - 1, cur, reply);
      NoFailAppend(Reports(p, functional, replies, n - 1), ReportOf(p, functional, n - 1, cur, reply));
    }
  }

  // Every one of the first n calls succeeded and, where the size is looked at,
  // left the break where a run without failures has it.
  predicate OnClosedForm(p: Plan, functional: bool, replies: seq<Reply>, n: nat)
    requires p.beg <= p.max && n <= |replies|
  {
    forall i {:trigger replies[i]} :: 0 <= i < n ==>
      replies[i].ret != -1 && (functional ==> replies[i].after == ClosedBreak(p, i + 1))
  }

  lemma SeenOnClosedForm(p: Plan, replies: seq<Reply>, n: nat)
    requires p.beg <= p.max && n <= |replies|
    requires OnClosedForm(p, true, replies, n)
    ensures Seen(p, replies, n) == ClosedBreak(p, n)
  {
    if n > 0 {
      assert replies[n - 1].after == Seen(p, replies, n);
    }
  }

  // With functional testing on, a log without failures pins the whole trace:
  // whatever the kernel answered and whatever the sign of the step, no failure
  // is reported exactly when every call succeeded and left the break at the
  // closed form. With it off, the results say nothing about where the break went.
  lemma {:induction false} CleanLogIff(p: Plan, functional: bool, replies: seq<Reply>, n: nat)
    requires p.beg <= p.max && n <= |replies|
    ensures NoFail(Reports(p, functional, replies, n)) <==> OnClosedForm(p, functional, replies, n)
  {
    hide ReportOf, Request, ClosedBreak;
    if n > 0 {
      CleanLogIff(p, functional, replies, n - 1);
      var reply, cur := replies[n - 1], Seen(p, replies, n - 1);
      CleanReportIff(p, functional, n - 1, cur, reply);
      NoFailAppend(Reports(p, functional, replies, n - 1), ReportOf(p, functional, n - 1, cur, reply));
      if functional && OnClosedForm(p, functional, replies, n - 1) {
        SeenOnClosedForm(p, replies, n - 1);
        ClosedBreakStep(p, n - 1);
      }
    }
  }

  // The whole log of a run with functional testing on that reports no failure.
  lemma CleanLogContents(p: Plan, replies: seq<Reply>, n: nat)
    requires p.beg <= p.max && n <= |replies|
    requires NoFail(Reports(p, true, replies, n))
    ensures |Reports(p, true, replies, n)| == n
    ensures forall i :: 0 <= i < n ==>
              Reports(p, true, replies, n)[i] == Verified(ClosedBreak(p, i + 1), replies[i].ret)
  {
    hide ClosedBreak, ReportOf;
    LogEntries(p, replies, n);
    CleanLogIff(p, true, replies, n);
    forall i | 0 <= i < n
      ensures Reports(p, true, replies, n)[i] == Verified(ClosedBreak(p, i + 1), replies[i].ret)
    {
      var r := Reports(p, true, replies, n)[i];
      assert r.Verified? && r.request == replies[i].after == ClosedBreak(p, i + 1);
    }
  }

  // The answers of a kernel that lets every call succeed.
  function Obedient(p: Plan, n: nat): (replies: seq<Reply>)
    requires p.beg <= p.max
    ensures |replies| == n && OnClosedForm(p, true, replies, n)
  {
    seq(n, i requires 0 <= i < n => Reply(0, ClosedBreak(p, i + 1)))
  }
}
