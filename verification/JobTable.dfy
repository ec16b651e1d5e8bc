/**
 The server's job table: the statements of server/internal/store/jobs.go:196-300 and the
 gateway's handling of a result (server/internal/gateway/gateway.go:206-289).

 Each statement is one atomic step on the tables.  Sends, late mark-sent calls, drains, results
 (duplicated, reordered or forged by another agent of the tenant) and expiry sweeps reach the
 table in any order, so every event is possible in every state.  A job's id is its creation rank.
 */
module JobTable {
  import opened Wrappers
  import opened Commands

  datatype Status = Pending | Sent | Running | Succeeded | Failed | TimedOut | Expired

  datatype Job = Job(
    command: CommandId, device: nat, work: Work, timeout: nat, expiresAt: int,
    status: Status, sentAt: Option<int>, startedAt: Option<int>, finishedAt: Option<int>)

  datatype Output = Output(text: string, exitCode: Option<int>)

  datatype Tables = Tables(jobs: seq<Job>, outputs: map<nat, Output>)

  const Empty := Tables([], map[])

  /** What CompleteJob is given. */
  datatype Report = Report(command: CommandId, status: Status, output: Output, startedAt: int, finishedAt: int)

  datatype Event =
    | Create(command: CommandId, device: nat, work: Work, timeout: nat, expiresAt: int)
    | MarkSent(id: nat, now: int)
    | Sweep(now: int)
    | Complete(report: Report)

  predicate Closed(j: Job) {
    j.status.Succeeded? || j.status.Failed? || j.status.TimedOut? || j.status.Expired?
  }

  predicate Queued(j: Job) {
    j.status.Pending? || j.status.Sent?
  }

  function NewJob(command: CommandId, device: nat, work: Work, timeout: nat, expiresAt: int): Job {
    Job(command, device, work, timeout, expiresAt, Pending, None, None, None)
  }

  predicate CommandTaken(t: Tables, command: CommandId) {
    exists k :: 0 <= k < |t.jobs| && t.jobs[k].command == command
  }

  function Swept(j: Job, now: int): Job {
    if Queued(j) && j.expiresAt < now then j.(status := Expired, finishedAt := Some(now)) else j
  }

  function Marked(j: Job, now: int): Job {
    if Queued(j) then j.(status := Sent, sentAt := Some(now)) else j
  }

  predicate Matches(j: Job, r: Report) {
    j.command == r.command && !Closed(j)
  }

  function Completed(j: Job, r: Report): Job {
    if Matches(j, r) then
      j.(status := r.status, startedAt := Some(r.startedAt), finishedAt := Some(r.finishedAt))
    else j
  }

  /** The output rows of CompleteJob: one per job with the command, unless it has one already. */
  function NewOutputs(t: Tables, r: Report): map<nat, Output> {
    map k: nat | k < |t.jobs| && t.jobs[k].command == r.command && k !in t.outputs :: r.output
  }

  function ApplyComplete(t: Tables, r: Report): Tables {
    if exists k :: 0 <= k < |t.jobs| && Matches(t.jobs[k], r) then
      Tables(seq(|t.jobs|, k requires 0 <= k < |t.jobs| => Completed(t.jobs[k], r)), t.outputs + NewOutputs(t, r))
    else t
  }

  function Apply(t: Tables, e: Event): Tables {
    match e
    case Create(command, device, work, timeout, expiresAt) =>
      if CommandTaken(t, command) then t
      else t.(jobs := t.jobs + [NewJob(command, device, work, timeout, expiresAt)])
    case MarkSent(id, now) =>
      if id < |t.jobs| then t.(jobs := t.jobs[id := Marked(t.jobs[id], now)]) else t
    case Sweep(now) =>
      t.(jobs := seq(|t.jobs|, k requires 0 <= k < |t.jobs| => Swept(t.jobs[k], now)))
    case Complete(r) => ApplyComplete(t, r)
  }

  // ---------------------------------------------------------------------
  // From the agent's report to the row

  function StatusName(s: CommandStatus): Status {
    match s
    case StatusSucceeded => Succeeded
    case StatusFailed => Failed
    case StatusTimeout => TimedOut
    case StatusExpired => Expired
    case StatusUnspecified => Failed
  }

  /** A CommandResult frame; `command` is absent when the id is empty. */
  datatype CommandResult = CommandResult(
    command: Option<CommandId>, status: CommandStatus, exitCode: int, output: string,
    startedAt: Option<int>, finishedAt: Option<int>)

  function ReportOf(res: CommandResult, now: int): Report
    requires res.command.Some?
  {
    Report(res.command.value, StatusName(res.status),
           Output(res.output, if res.status.StatusSucceeded? || res.status.StatusFailed? then Some(res.exitCode) else None),
           if res.startedAt.Some? then res.startedAt.value else now,
           if res.finishedAt.Some? then res.finishedAt.value else now)
  }

  /** The events the code can produce: a result's status name is always a closing one. */
  predicate Possible(e: Event) {
    e.Complete? ==> e.report.status in {Succeeded, Failed, TimedOut, Expired}
  }

  lemma ReportsClose(res: CommandResult, now: int)
    requires res.command.Some?
    ensures Possible(Complete(ReportOf(res, now)))
    ensures var r := ReportOf(res, now);
      && r.command == res.command.value && r.output.text == res.output
      && (r.status == Succeeded <==> res.status == StatusSucceeded)
      && (r.status == TimedOut <==> res.status == StatusTimeout)
      && (r.status == Expired <==> res.status == StatusExpired)
      && (r.status == Failed <==> res.status in {StatusFailed, StatusUnspecified})
      && r.output.exitCode == (if r.status == Succeeded || res.status == StatusFailed then Some(res.exitCode) else None)
      && (res.startedAt == Some(r.startedAt) || (res.startedAt.None? && r.startedAt == now))
      && (res.finishedAt == Some(r.finishedAt) || (res.finishedAt.None? && r.finishedAt == now))
  {
  }

  // ---------------------------------------------------------------------
  // Runs

  function After(es: seq<Event>): Tables {
    if es == [] then Empty else Apply(After(es[..|es| - 1]), es[|es| - 1])
  }

  ghost predicate IsRun(es: seq<Event>) {
    forall k :: 0 <= k < |es| ==> Possible(es[k])
  }

  lemma OneMore(es: seq<Event>, e: Event)
    ensures After(es + [e]) == Apply(After(es), e)
  {
    assert (es + [e])[..|es|] == es;
  }

  ghost predicate UniqueCommands(jobs: seq<Job>) {
    forall i, j :: 0 <= i < j < |jobs| ==> jobs[i].command != jobs[j].command
  }

  /**
   A job has an output row exactly if CompleteJob closed it; without one it expired in a sweep.
   The send and finish times are set in exactly the states that have them.
   */
  predicate OutputFits(t: Tables, k: nat)
    requires k < |t.jobs|
  {
    && !t.jobs[k].status.Running?
    && (k in t.outputs ==> Closed(t.jobs[k]))
    && (k !in t.outputs && Closed(t.jobs[k]) ==> t.jobs[k].status.Expired?)
    && (t.jobs[k].status.Sent? ==> t.jobs[k].sentAt.Some?)
    && (t.jobs[k].status.Pending? ==> t.jobs[k].sentAt.None?)
    && (Closed(t.jobs[k]) <==> t.jobs[k].finishedAt.Some?)
  }

  ghost predicate Inv(t: Tables) {
    && UniqueCommands(t.jobs)
    && (forall k :: k in t.outputs ==> k < |t.jobs|)
    && (forall k :: 0 <= k < |t.jobs| ==> OutputFits(t, k))
  }

  lemma StepKeepsInv(t: Tables, e: Event)
    requires Inv(t) && Possible(e)
    ensures Inv(Apply(t, e))
  {
    var t' := Apply(t, e);
    forall k | 0 <= k < |t'.jobs|
      ensures OutputFits(t', k)
    {
      if k < |t.jobs| {
        assert OutputFits(t, k);
        if e.Complete? && exists i :: 0 <= i < |t.jobs| && Matches(t.jobs[i], e.report) {
          var i :| 0 <= i < |t.jobs| && Matches(t.jobs[i], e.report);
          assert k in NewOutputs(t, e.report) ==> k == i;
        }
      }
    }
  }

  lemma {:induction false} RunKeepsInv(es: seq<Event>)
    requires IsRun(es)
    ensures Inv(After(es))
  {
    if es != [] {
      RunKeepsInv(es[..|es| - 1]);
      StepKeepsInv(After(es[..|es| - 1]), es[|es| - 1]);
    }
  }

  function Rank(s: Status): nat {
    match s
    case Pending => 0
    case Sent => 1
    case Running => 1
    case _ => 2
  }

  /** What any later moment keeps of one job: its work, and everything once it is closed. */
  predicate Keeps(a: Tables, b: Tables, k: nat)
    requires k < |a.jobs|
  {
    && k < |b.jobs|
    && b.jobs[k].command == a.jobs[k].command && b.jobs[k].device == a.jobs[k].device
    && b.jobs[k].work == a.jobs[k].work && b.jobs[k].expiresAt == a.jobs[k].expiresAt
    && b.jobs[k].timeout == a.jobs[k].timeout
    && Rank(a.jobs[k].status) <= Rank(b.jobs[k].status)
    && (Closed(a.jobs[k]) ==>
          && b.jobs[k] == a.jobs[k]
          && (k in b.outputs <==> k in a.outputs)
          && (k in a.outputs ==> b.outputs[k] == a.outputs[k]))
  }

  lemma StepKeeps(t: Tables, e: Event, k: nat)
    requires Inv(t) && Possible(e) && k < |t.jobs|
    ensures Keeps(t, Apply(t, e), k)
  {
  }

  lemma {:induction false} KeptForever(es: seq<Event>, n: nat, k: nat)
    requires IsRun(es) && n <= |es| && k < |After(es[..n]).jobs|
    ensures Keeps(After(es[..n]), After(es), k)
  {
    if n < |es| {
      var before := es[..|es| - 1];
      assert before[..n] == es[..n];
      KeptForever(before, n, k);
      RunKeepsInv(before);
      StepKeeps(After(before), es[|es| - 1], k);
    } else {
      assert es[..n] == es;
    }
  }

  /** Marking sends an open job, also one that was sent before, and leaves a closed one and all others alone. */
  lemma MarkSentMarks(t: Tables, id: nat, now: int)
    ensures var t' := Apply(t, MarkSent(id, now));
      && t'.outputs == t.outputs && |t'.jobs| == |t.jobs|
      && (forall k :: 0 <= k < |t.jobs| && k != id ==> t'.jobs[k] == t.jobs[k])
      && (id < |t.jobs| && t.jobs[id].status in {Pending, Sent} ==> t'.jobs[id] == t.jobs[id].(status := Sent, sentAt := Some(now)))
      && (id < |t.jobs| && t.jobs[id].status !in {Pending, Sent} ==> t'.jobs[id] == t.jobs[id])
  {
  }

  /** Event `n` marks job `k` as sent while it is still open. */
  ghost predicate MarksAt(es: seq<Event>, n: int, k: nat) {
    && 0 <= n < |es| && es[n].MarkSent? && es[n].id == k
    && k < |After(es[..n]).jobs| && After(es[..n]).jobs[k].status in {Pending, Sent}
  }

  /**
   Terminal states are absorbing: whatever arrives later, a closed job's row and output row never
   change, an open one never goes back from sent to pending, and no job's work ever changes.
   */
  lemma ClosedForever(es: seq<Event>, n: nat, k: nat)
    requires IsRun(es) && n <= |es| && k < |After(es[..n]).jobs|
    ensures k < |After(es).jobs|
    ensures var a, b := After(es[..n]).jobs[k], After(es).jobs[k];
      && b == a.(status := b.status, sentAt := b.sentAt, startedAt := b.startedAt, finishedAt := b.finishedAt)
      && (a.status == Sent ==> b.status != Pending)
      && (a.status in {Succeeded, Failed, TimedOut, Expired} ==>
            && b == a
            && (k in After(es).outputs <==> k in After(es[..n]).outputs)
            && (k in After(es).outputs ==> After(es).outputs[k] == After(es[..n]).outputs[k]))
  {
    KeptForever(es, n, k);
  }

  lemma MarksBefore(es: seq<Event>, n: int, k: nat)
    requires es != [] && n < |es| - 1
    ensures MarksAt(es, n, k) <==> MarksAt(es[..|es| - 1], n, k)
  {
    if 0 <= n {
      assert es[..|es| - 1][..n] == es[..n] && es[..|es| - 1][n] == es[n];
    }
  }

  lemma StepMarks(t: Tables, e: Event, k: nat)
    requires Inv(t) && k < |t.jobs|
    ensures k < |Apply(t, e).jobs|
    ensures Apply(t, e).jobs[k].sentAt.Some? <==>
              t.jobs[k].sentAt.Some? || (e.MarkSent? && e.id == k && t.jobs[k].status in {Pending, Sent})
  {
  }

  /** A new job was never marked. */
  lemma NotYetMarked(es: seq<Event>, n: int, k: nat)
    requires IsRun(es) && MarksAt(es, n, k)
    ensures k < |After(es).jobs|
  {
    KeptForever(es, n, k);
  }

  lemma {:induction false} SendTimeIffMarked(es: seq<Event>, k: nat)
    requires IsRun(es) && k < |After(es).jobs|
    ensures After(es).jobs[k].sentAt.Some? <==> exists n :: MarksAt(es, n, k)
  {
    var last := |es| - 1;
    var before := es[..last];
    forall n | n < last
      ensures MarksAt(es, n, k) <==> MarksAt(before, n, k)
    {
      MarksBefore(es, n, k);
    }
    if k < |After(before).jobs| {
      SendTimeIffMarked(before, k);
      RunKeepsInv(before);
      StepMarks(After(before), es[last], k);
      assert MarksAt(es, last, k) <==> es[last].MarkSent? && es[last].id == k && After(before).jobs[k].status in {Pending, Sent};
    } else {
      forall n
        ensures !MarksAt(es, n, k)
      {
        if MarksAt(before, n, k) {
          NotYetMarked(before, n, k);
        }
      }
    }
  }

  /** Over every run a job has a send time exactly if it was marked while open; an open one is then `Sent`, otherwise `Pending`. */
  lemma SentIffMarked(es: seq<Event>, k: nat)
    requires IsRun(es) && k < |After(es).jobs|
    ensures After(es).jobs[k].sentAt.Some? <==> exists n :: MarksAt(es, n, k)
    ensures !Closed(After(es).jobs[k]) ==> After(es).jobs[k].status == if After(es).jobs[k].sentAt.Some? then Sent else Pending
  {
    SendTimeIffMarked(es, k);
    RunKeepsInv(es);
    assert OutputFits(After(es), k);
  }

  /** What it means that event `e`, in state `t`, closed job `k` as `b` shows it. */
  predicate ClosedBy(t: Tables, e: Event, b: Tables, k: nat)
    requires k < |b.jobs|
  {
    && k < |t.jobs| && !Closed(t.jobs[k])
    && ((&& e.Sweep? && t.jobs[k].expiresAt < e.now
         && b.jobs[k].status == Expired && b.jobs[k].finishedAt == Some(e.now) && k !in b.outputs)
        || (&& e.Complete? && e.report.command == t.jobs[k].command
            && b.jobs[k].status == e.report.status
            && b.jobs[k].startedAt == Some(e.report.startedAt)
            && b.jobs[k].finishedAt == Some(e.report.finishedAt)
            && k in b.outputs && b.outputs[k] == e.report.output))
  }

  lemma ClosingStep(t: Tables, e: Event, k: nat)
    requires Inv(t) && k < |Apply(t, e).jobs| && Closed(Apply(t, e).jobs[k])
    requires k < |t.jobs| ==> !Closed(t.jobs[k])
    ensures ClosedBy(t, e, Apply(t, e), k)
  {
    if k < |t.jobs| {
      assert OutputFits(t, k);
    }
  }

  /** An event that meets the conditions for closing a job does close it, there and then. */
  lemma ClosedByCloses(t: Tables, e: Event, b: Tables, k: nat)
    requires Inv(t) && Possible(e) && k < |b.jobs| && ClosedBy(t, e, b, k)
    ensures k < |Apply(t, e).jobs| && Closed(Apply(t, e).jobs[k])
  {
    assert OutputFits(t, k);
    if e.Complete? {
      assert Matches(t.jobs[k], e.report);
    }
  }

  lemma {:induction false} ClosedAfterwards(es: seq<Event>, m: nat, n: nat, k: nat)
    requires IsRun(es) && m < n <= |es| && k < |After(es).jobs| && ClosedBy(After(es[..m]), es[m], After(es), k)
    ensures k < |After(es[..n]).jobs| && Closed(After(es[..n]).jobs[k])
  {
    var upto := es[..m + 1];
    assert upto[..m] == es[..m] && es[..n][..m + 1] == upto;
    RunKeepsInv(es[..m]);
    ClosedByCloses(After(es[..m]), es[m], After(es), k);
    KeptForever(es[..n], m + 1, k);
  }

  lemma {:induction false} ClosingEventExists(es: seq<Event>, k: nat) returns (n: nat)
    requires IsRun(es) && k < |After(es).jobs| && Closed(After(es).jobs[k])
    ensures n < |es| && ClosedBy(After(es[..n]), es[n], After(es), k)
  {
    var before := es[..|es| - 1];
    RunKeepsInv(before);
    if k < |After(before).jobs| && Closed(After(before).jobs[k]) {
      n := ClosingEventExists(before, k);
      assert before[..n] == es[..n] && before[n] == es[n];
      StepKeeps(After(before), es[|es| - 1], k);
    } else {
      n := |es| - 1;
      ClosingStep(After(before), es[n], k);
    }
  }

  ghost predicate Decides(es: seq<Event>, k: nat, n: int)
    requires k < |After(es).jobs|
  {
    0 <= n < |es| && ClosedBy(After(es[..n]), es[n], After(es), k)
  }

  /**
   Exactly one event of the run decides a closed job, for good, the first that could close it: a
   sweep after the expiry, which leaves no output, or a report for the job's command, whose
   status, times, text and exit code are the job's for ever.
   */
  lemma OneEventDecides(es: seq<Event>, k: nat) returns (n: nat)
    requires IsRun(es) && k < |After(es).jobs| && Closed(After(es).jobs[k])
    ensures Decides(es, k, n) && forall m :: Decides(es, k, m) ==> m == n
    ensures var j, outputs := After(es).jobs[k], After(es).outputs;
      && (es[n].Sweep? || es[n].Complete?)
      && (es[n].Sweep? ==> j.status == Expired && j.expiresAt < es[n].now && j.finishedAt == Some(es[n].now) && k !in outputs)
      && (es[n].Complete? ==>
            && es[n].report.command == j.command && j.status == es[n].report.status
            && j.startedAt == Some(es[n].report.startedAt) && j.finishedAt == Some(es[n].report.finishedAt)
            && k in outputs && outputs[k] == es[n].report.output)
  {
    n := ClosingEventExists(es, k);
    KeptForever(es, n, k);
    forall m | Decides(es, k, m)
      ensures m == n
    {
      if m < n {
        ClosedAfterwards(es, m, n, k);
      } else if n < m {
        ClosedAfterwards(es, n, m, k);
      }
    }
  }

  /** So an output row tells a report from a sweep, even where both say "expired". */
  lemma OutputMeansReported(es: seq<Event>, k: nat)
    requires IsRun(es) && k < |After(es).jobs|
    ensures k in After(es).outputs <==>
      exists n :: Decides(es, k, n) && es[n].Complete?
  {
    RunKeepsInv(es);
    assert OutputFits(After(es), k);
    if k in After(es).outputs {
      var n := OneEventDecides(es, k);
    }
  }

  /** After a sweep later than a job's expiry the job is closed, and stays so. */
  lemma SweepLeavesNothingOverdue(es: seq<Event>, now: int, more: seq<Event>, k: nat)
    requires IsRun(es) && IsRun(more) && k < |After(es).jobs| && After(es).jobs[k].expiresAt < now
    ensures var all := es + [Sweep(now)] + more;
      k < |After(all).jobs| && Closed(After(all).jobs[k])
  {
    var swept := es + [Sweep(now)];
    var all := swept + more;
    RunKeepsInv(es);
    assert OutputFits(After(es), k);
    OneMore(es, Sweep(now));
    assert all[..|swept|] == swept;
    assert IsRun(all);
    KeptForever(all, |swept|, k);
  }

  /** A report closes an open job whatever the order of the events before it. */
  lemma ReportCloses(es: seq<Event>, r: Report, k: nat)
    requires IsRun(es) && Possible(Complete(r))
    requires k < |After(es).jobs| && After(es).jobs[k].command == r.command
    ensures Closed(After(es + [Complete(r)]).jobs[k])
    ensures !Closed(After(es).jobs[k]) ==> ClosedBy(After(es), Complete(r), After(es + [Complete(r)]), k)
  {
    RunKeepsInv(es);
    OneMore(es, Complete(r));
    if !Closed(After(es).jobs[k]) {
      assert Matches(After(es).jobs[k], r);
      ClosingStep(After(es), Complete(r), k);
    }
  }

  // ---------------------------------------------------------------------
  // The store

  predicate Deliverable(j: Job, device: nat, now: int) {
    j.device == device && Queued(j) && j.expiresAt > now
  }

  function DeliverableIds(jobs: seq<Job>, device: nat, now: int): seq<nat> {
    if jobs == [] then []
    else
      var last := |jobs| - 1;
      DeliverableIds(jobs[..last], device, now) + if Deliverable(jobs[last], device, now) then [last] else []
  }

  /** The drain lists exactly the device's open, unexpired jobs, each once and oldest first. */
  lemma {:induction false} DrainListsOpenJobs(jobs: seq<Job>, device: nat, now: int)
    ensures var ids := DeliverableIds(jobs, device, now);
      && (forall k :: 0 <= k < |jobs| ==>
            (k in ids <==> jobs[k].device == device && jobs[k].status in {Pending, Sent} && jobs[k].expiresAt > now))
      && (forall k :: 0 <= k < |ids| ==> ids[k] < |jobs|)
      && (forall i, j :: 0 <= i < j < |ids| ==> ids[i] < ids[j])
  {
    if jobs != [] {
      DrainListsOpenJobs(jobs[..|jobs| - 1], device, now);
    }
  }

  class JobStore {
    var jobs: seq<Job>
    var outputs: map<nat, Output>

    function Contents(): Tables
      reads this
    {
      Tables(jobs, outputs)
    }

    constructor ()
      ensures Contents() == Empty
    {
      jobs, outputs := [], map[];
    }

    method CreateJob(command: CommandId, device: nat, work: Work, timeout: nat, expiresAt: int) returns (id: Option<nat>)
      modifies this
      ensures Contents() == Apply(old(Contents()), Create(command, device, work, timeout, expiresAt))
      ensures id.None? <==> exists k :: 0 <= k < |old(jobs)| && old(jobs)[k].command == command
      ensures id.None? ==> Contents() == old(Contents())
      ensures id.Some? ==> id.value == |old(jobs)| && outputs == old(outputs)
      ensures id.Some? ==> jobs == old(jobs) + [Job(command, device, work, timeout, expiresAt, Pending, None, None, None)]
    {
      if exists k :: 0 <= k < |jobs| && jobs[k].command == command {
        return None;
      }
      id := Some(|jobs|);
      jobs := jobs + [NewJob(command, device, work, timeout, expiresAt)];
    }

    method MarkJobSent(id: nat, now: int)
      modifies this
      ensures Contents() == Apply(old(Contents()), MarkSent(id, now))
    {
      if id < |jobs| && Queued(jobs[id]) {
        jobs := jobs[id := jobs[id].(status := Sent, sentAt := Some(now))];
      }
    }

    method ExpireQueuedJobs(now: int) returns (n: nat)
      modifies this
      ensures Contents() == Apply(old(Contents()), Sweep(now))
      ensures n == |set k | 0 <= k < |old(jobs)| && Queued(old(jobs)[k]) && old(jobs)[k].expiresAt < now|
    {
      var rows := jobs;
      n := |set k | 0 <= k < |rows| && Queued(rows[k]) && rows[k].expiresAt < now|;
      jobs := seq(|rows|, k requires 0 <= k < |rows| => Swept(rows[k], now));
    }

    method ListPendingJobsForDevice(device: nat, now: int) returns (out: seq<nat>)
      ensures out == DeliverableIds(jobs, device, now)
    {
      out := [];
      var i := 0;
      while i < |jobs|
        invariant 0 <= i <= |jobs|
        invariant out == DeliverableIds(jobs[..i], device, now)
      {
        assert jobs[..i + 1][..i] == jobs[..i];
        if Deliverable(jobs[i], device, now) {
          out := out + [i];
        }
        i := i + 1;
      }
      assert jobs[..i] == jobs;
    }

    /** The guarded update and, if it touched a row, the insert that never overwrites. */
    method CompleteJob(r: Report)
      modifies this
      ensures Contents() == Apply(old(Contents()), Complete(r))
    {
      var rows := jobs;
      var affected := exists k :: 0 <= k < |rows| && Matches(rows[k], r);
      if !affected {
        return;
      }
      jobs := seq(|rows|, k requires 0 <= k < |rows| => Completed(rows[k], r));
      var inserted := map k: nat | k < |jobs| && jobs[k].command == r.command && k !in outputs :: r.output;
      assert inserted == NewOutputs(old(Contents()), r);
      outputs := outputs + inserted;
    }

    /** handleCommandResult: any agent of the tenant may report any command. */
    method HandleCommandResult(res: Option<CommandResult>, now: int)
      modifies this
      ensures Contents() ==
        if res.None? || res.value.command.None? then old(Contents())
        else Apply(old(Contents()), Complete(ReportOf(res.value, now)))
    {
      if res.None? || res.value.command.None? {
        return;
      }
      var r := res.value;
      var exitCode: Option<int> := None;
      if r.status.StatusSucceeded? || r.status.StatusFailed? {
        exitCode := Some(r.exitCode);
      }
      var startedAt := now;
      if r.startedAt.Some? {
        startedAt := r.startedAt.value;
      }
      var finishedAt := now;
      if r.finishedAt.Some? {
        finishedAt := r.finishedAt.value;
      }
      CompleteJob(Report(r.command.value, StatusName(r.status), Output(r.output, exitCode), startedAt, finishedAt));
    }
  }
}
