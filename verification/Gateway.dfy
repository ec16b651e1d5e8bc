/**
 The gateway's delivery loops (server/internal/gateway/gateway.go:168-204, 347-376 and
 server/internal/api/jobs_handlers.go:287-298): draining the open jobs of a device that has just
 connected, and pushing freshly created jobs to devices that are online.
 */
module Gateway {
  import opened Wrappers
  import opened Commands
  import opened CommandDelivery
  import JobTable

  /**
   A loop over `ids`: whether the i-th frame can be written and the i-th mark-sent transaction
   commits, and whether the loop gives up at the first frame it cannot write.
   */
  datatype Batch = Batch(ids: seq<nat>, sendOk: nat -> bool, markOk: nat -> bool, giveUp: bool, now: int)

  /** What the loop has done: the tables, the frames written, and whether it is still going. */
  datatype Progress = Progress(tables: JobTable.Tables, sent: seq<Frame>, live: bool)

  predicate Sends(s: Progress, id: nat, sendOk: bool)
    requires id < |s.tables.jobs|
  {
    s.live && RequestFor(s.tables.jobs[id]).Ok? && sendOk
  }

  function FrameOf(j: JobTable.Job): Frame
    requires RequestFor(j).Ok?
  {
    Frame(j.device, RequestFor(j).value)
  }

  /** One job's turn. */
  function Deliver(s: Progress, id: nat, sendOk: bool, markOk: bool, giveUp: bool, now: int): Progress
    requires id < |s.tables.jobs|
  {
    if Sends(s, id, sendOk) then
      Progress(if markOk then JobTable.Apply(s.tables, JobTable.MarkSent(id, now)) else s.tables,
               s.sent + [FrameOf(s.tables.jobs[id])], true)
    else if s.live && RequestFor(s.tables.jobs[id]).Ok? then s.(live := !giveUp)
    else s
  }

  ghost predicate InTable(ids: seq<nat>, t: JobTable.Tables) {
    forall k :: 0 <= k < |ids| ==> ids[k] < |t.jobs|
  }

  /** The state after the first `n` jobs. */
  function DeliverAt(t: JobTable.Tables, b: Batch, n: nat): (s: Progress)
    requires n <= |b.ids| && InTable(b.ids, t)
    ensures |s.tables.jobs| == |t.jobs|
  {
    if n == 0 then Progress(t, [], true)
    else Deliver(DeliverAt(t, b, n - 1), b.ids[n - 1], b.sendOk(n - 1), b.markOk(n - 1), b.giveUp, b.now)
  }

  function FrameSet(fs: seq<Frame>): set<Frame> {
    set f | f in fs
  }

  lemma FrameSetGrows(frames: set<Frame>, fs: seq<Frame>, f: Frame)
    ensures frames + FrameSet(fs) + {f} == frames + FrameSet(fs + [f])
  {
  }

  /** The whole system has reached `w` from `start` by what the loop has done so far. */
  ghost predicate Mirrors(start: World, w: World, s: Progress) {
    Reachable(w) && w.tables == s.tables && w.agents == start.agents && w.frames == start.frames + FrameSet(s.sent)
  }

  lemma TurnHappens(start: World, w: World, s: Progress, id: nat, sendOk: bool, markOk: bool, giveUp: bool, now: int)
    returns (w': World)
    requires Mirrors(start, w, s) && id < |s.tables.jobs|
    ensures Mirrors(start, w', Deliver(s, id, sendOk, markOk, giveUp, now))
  {
    w' := w;
    if Sends(s, id, sendOk) {
      ReachableStep(w', SendJob(id));
      FrameSetGrows(start.frames, s.sent, FrameOf(s.tables.jobs[id]));
      w' := Apply(w', SendJob(id));
      if markOk {
        var mark := Server(JobTable.MarkSent(id, now));
        ReachableStep(w', mark);
        w' := Apply(w', mark);
      }
    }
  }

  /** A loop's sends and marks are events of the whole system, one after the other. */
  lemma {:induction false} DeliveryHappens(w: World, b: Batch, n: nat) returns (w': World)
    requires Reachable(w) && InTable(b.ids, w.tables) && n <= |b.ids|
    ensures Mirrors(w, w', DeliverAt(w.tables, b, n))
  {
    if n == 0 {
      w' := w;
    } else {
      w' := DeliveryHappens(w, b, n - 1);
      w' := TurnHappens(w, w', DeliverAt(w.tables, b, n - 1), b.ids[n - 1], b.sendOk(n - 1), b.markOk(n - 1), b.giveUp, b.now);
    }
  }

  /** Marking a job sent changes nothing a frame is built from. */
  lemma {:induction false} FramesStayTheSame(t: JobTable.Tables, b: Batch, n: nat, k: nat)
    requires n <= |b.ids| && InTable(b.ids, t) && k < |t.jobs|
    ensures var j := DeliverAt(t, b, n).tables.jobs[k];
      RequestFor(j) == RequestFor(t.jobs[k]) && j.device == t.jobs[k].device
  {
    if n > 0 {
      FramesStayTheSame(t, b, n - 1, k);
    }
  }

  ghost predicate FromOpenJob(t: JobTable.Tables, device: nat, at: int, f: Frame) {
    exists k :: 0 <= k < |t.jobs| && t.jobs[k].device == device == f.device
                && t.jobs[k].status in {JobTable.Pending, JobTable.Sent} && t.jobs[k].expiresAt > at
                && RequestFor(t.jobs[k]) == Ok(f.request)
  }

  /** A drain sends frames only for open, unexpired jobs, and only to the device they are for. */
  lemma {:induction false} DrainSendsOpenJobs(t: JobTable.Tables, device: nat, at: int, b: Batch, n: nat)
    requires b.ids == JobTable.DeliverableIds(t.jobs, device, at) && n <= |b.ids| && InTable(b.ids, t)
    ensures forall f :: f in DeliverAt(t, b, n).sent ==> FromOpenJob(t, device, at, f)
  {
    if n > 0 {
      var id := b.ids[n - 1];
      DrainSendsOpenJobs(t, device, at, b, n - 1);
      FramesStayTheSame(t, b, n - 1, id);
      JobTable.DrainListsOpenJobs(t.jobs, device, at);
      assert id in b.ids;
      if RequestFor(t.jobs[id]).Ok? {
        assert FromOpenJob(t, device, at, FrameOf(t.jobs[id]));
      }
    }
  }

  ghost predicate Distinct(ids: seq<nat>) {
    forall i, j :: 0 <= i < j < |ids| ==> ids[i] != ids[j]
  }

  /** The i-th job's turn succeeded: its frame is out, and if its mark committed the row says so. */
  ghost predicate WasSent(t: JobTable.Tables, s: Progress, id: nat, marked: bool, now: int)
    requires id < |t.jobs| && id < |s.tables.jobs| && RequestFor(t.jobs[id]).Ok?
  {
    && Frame(t.jobs[id].device, RequestFor(t.jobs[id]).value) in s.sent
    && s.tables.jobs[id] == if marked && t.jobs[id].status in {JobTable.Pending, JobTable.Sent}
                            then t.jobs[id].(status := JobTable.Sent, sentAt := Some(now)) else t.jobs[id]
  }

  /** A loop that gives up at a failed write meets none among its first `n` jobs. */
  ghost predicate MeetsNoFailure(t: JobTable.Tables, b: Batch, n: nat)
    requires InTable(b.ids, t) && n <= |b.ids|
  {
    forall i :: 0 <= i < n && b.giveUp && RequestFor(t.jobs[b.ids[i]]).Ok? ==> b.sendOk(i)
  }

  lemma TurnTouchesOnly(s: Progress, id: nat, sendOk: bool, markOk: bool, giveUp: bool, now: int)
    requires id < |s.tables.jobs|
    ensures var r := Deliver(s, id, sendOk, markOk, giveUp, now);
      && |r.tables.jobs| == |s.tables.jobs| && (forall k :: 0 <= k < |s.tables.jobs| && k != id ==> r.tables.jobs[k] == s.tables.jobs[k])
      && (forall f :: f in s.sent ==> f in r.sent)
  {
  }

  lemma {:induction false} StaysLive(t: JobTable.Tables, b: Batch, n: nat)
    requires InTable(b.ids, t) && n <= |b.ids| && MeetsNoFailure(t, b, n)
    ensures DeliverAt(t, b, n).live
  {
    if n > 0 {
      StaysLive(t, b, n - 1);
      FramesStayTheSame(t, b, n - 1, b.ids[n - 1]);
    }
  }

  /** A row not listed among the first `n` is not touched by their turns. */
  lemma {:induction false} OthersUntouched(t: JobTable.Tables, b: Batch, n: nat, k: nat)
    requires InTable(b.ids, t) && n <= |b.ids| && k < |t.jobs| && forall i :: 0 <= i < n ==> b.ids[i] != k
    ensures DeliverAt(t, b, n).tables.jobs[k] == t.jobs[k]
  {
    if n > 0 {
      OthersUntouched(t, b, n - 1, k);
      TurnTouchesOnly(DeliverAt(t, b, n - 1), b.ids[n - 1], b.sendOk(n - 1), b.markOk(n - 1), b.giveUp, b.now);
    }
  }

  /**
   Each listed job whose request can be built and whose write succeeds is sent, and marked if its mark
   commits; the row of any other listed job stays as it was.
   */
  lemma {:induction false} LoopSendsAll(t: JobTable.Tables, b: Batch, n: nat, i: nat)
    requires InTable(b.ids, t) && i < n <= |b.ids| && Distinct(b.ids) && MeetsNoFailure(t, b, n)
    ensures if RequestFor(t.jobs[b.ids[i]]).Ok? && b.sendOk(i)
            then WasSent(t, DeliverAt(t, b, n), b.ids[i], b.markOk(i), b.now)
            else DeliverAt(t, b, n).tables.jobs[b.ids[i]] == t.jobs[b.ids[i]]
  {
    if i < n - 1 {
      LoopSendsAll(t, b, n - 1, i);
      TurnTouchesOnly(DeliverAt(t, b, n - 1), b.ids[n - 1], b.sendOk(n - 1), b.markOk(n - 1), b.giveUp, b.now);
    } else {
      StaysLive(t, b, i);
      OthersUntouched(t, b, i, b.ids[i]);
      JobTable.MarkSentMarks(DeliverAt(t, b, i).tables, b.ids[i], b.now);
    }
  }

  /** The first write that fails ends a loop that gives up there: nothing is sent or marked after it. */
  lemma FailedWriteStopsTheDrain(t: JobTable.Tables, b: Batch, n: nat)
    requires InTable(b.ids, t) && n < |b.ids| && b.giveUp && MeetsNoFailure(t, b, n)
    requires RequestFor(t.jobs[b.ids[n]]).Ok? && !b.sendOk(n)
    ensures DeliverAt(t, b, |b.ids|) == DeliverAt(t, b, n).(live := false)
  {
    StaysLive(t, b, n);
    FramesStayTheSame(t, b, n, b.ids[n]);
    Stopped(t, b, n + 1, |b.ids|);
  }

  lemma {:induction false} Stopped(t: JobTable.Tables, b: Batch, n: nat, m: nat)
    requires InTable(b.ids, t) && n <= m <= |b.ids| && !DeliverAt(t, b, n).live
    ensures DeliverAt(t, b, m) == DeliverAt(t, b, n)
  {
    if n < m {
      Stopped(t, b, n, m - 1);
    }
  }

  /** drainPendingJobs: lists the device's open jobs as of `at`, then sends and marks them in turn. */
  method DrainPendingJobs(store: JobTable.JobStore, device: nat, at: int, sendOk: nat -> bool, markOk: nat -> bool, now: int)
    returns (sent: seq<Frame>)
    modifies store
    ensures var b := Batch(JobTable.DeliverableIds(old(store.jobs), device, at), sendOk, markOk, true, now);
      && InTable(b.ids, old(store.Contents()))
      && var s := DeliverAt(old(store.Contents()), b, |b.ids|);
      store.Contents() == s.tables && sent == s.sent
  {
    JobTable.DrainListsOpenJobs(store.jobs, device, at);
    var pending := store.ListPendingJobsForDevice(device, at);
    sent := SendInTurn(store, Batch(pending, sendOk, markOk, true, now));
  }

  method SendInTurn(store: JobTable.JobStore, b: Batch) returns (sent: seq<Frame>)
    requires InTable(b.ids, store.Contents()) && b.giveUp
    modifies store
    ensures var s := DeliverAt(old(store.Contents()), b, |b.ids|);
      store.Contents() == s.tables && sent == s.sent
  {
    ghost var t := store.Contents();
    sent := [];
    for i := 0 to |b.ids|
      invariant |store.jobs| == |t.jobs|
      invariant DeliverAt(t, b, i) == Progress(store.Contents(), sent, true)
    {
      var request := RequestFor(store.jobs[b.ids[i]]);
      if request.Ok? {
        if !b.sendOk(i) {
          Stopped(t, b, i + 1, |b.ids|);
          return;
        }
        sent := sent + [Frame(store.jobs[b.ids[i]].device, request.value)];
        if b.markOk(i) {
          store.MarkJobSent(b.ids[i], b.now);
        }
      }
    }
  }

  /** deliverJobs: a job whose device is offline, or whose spec cannot be built, waits for the drain. */
  method DeliverJobs(store: JobTable.JobStore, b: Batch) returns (sent: seq<Frame>)
    requires InTable(b.ids, store.Contents()) && !b.giveUp
    modifies store
    ensures var s := DeliverAt(old(store.Contents()), b, |b.ids|);
      store.Contents() == s.tables && sent == s.sent
  {
    ghost var t := store.Contents();
    sent := [];
    for i := 0 to |b.ids|
      invariant |store.jobs| == |t.jobs|
      invariant DeliverAt(t, b, i) == Progress(store.Contents(), sent, true)
    {
      var request := RequestFor(store.jobs[b.ids[i]]);
      if request.Ok? && b.sendOk(i) {
        sent := sent + [Frame(store.jobs[b.ids[i]].device, request.value)];
        if b.markOk(i) {
          store.MarkJobSent(b.ids[i], b.now);
        }
      }
    }
  }
}
