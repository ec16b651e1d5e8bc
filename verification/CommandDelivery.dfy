/**
 Command delivery end to end: the job table, the gateway that turns rows into request frames
 (server/internal/gateway/gateway.go:168-200, 334-376), agents that follow
 agent/internal/conn/conn.go:317-421, and a network that may lose, repeat, delay and reorder
 frames in both directions.

 A frame once sent can be delivered any number of times, or never; that covers drains after a
 reconnect, dispatches to a live connection and dropped connections alike.
 */
module CommandDelivery {
  import opened Wrappers
  import opened Commands
  import JobTable
  import AgentJournal

  type Agent = AgentJournal.Agent
  type Request = AgentJournal.Request
  type Reply = AgentJournal.Reply

  /** A request frame, addressed to a device. */
  datatype Frame = Frame(device: nat, request: Request)

  datatype World = World(tables: JobTable.Tables, frames: set<Frame>, agents: map<nat, Agent>)

  const Start := World(JobTable.Empty, {}, map[])

  datatype Event =
    | Server(statement: JobTable.Event)        // creation, mark-sent and sweep
    | SendJob(id: nat)                         // a drain or a dispatch builds and sends the frame
    | SendRefresh(device: nat, n: nat, expiresAt: int)  // RequestInventoryRefresh
    | OnAgent(device: nat, step: AgentJournal.Event)
    | Receive(device: nat, reply: Reply, output: string, now: int)

  function AgentOf(w: World, d: nat): Agent {
    if d in w.agents then w.agents[d] else AgentJournal.Init
  }

  function RequestFor(j: JobTable.Job): Result<Request, SpecError> {
    match CommandFor(j.work)
    case Ok((kind, spec)) => Ok(AgentJournal.Request(j.command, kind, spec, Some(j.expiresAt)))
    case Err(e) => Err(e)
  }

  /** It carries no spec bytes. */
  function RefreshRequest(n: nat, expiresAt: int): Request {
    AgentJournal.Request(Refresh(n), InventoryRefresh, Malformed, Some(expiresAt))
  }

  function ResultFrame(r: Reply, output: string): JobTable.CommandResult {
    JobTable.CommandResult(Some(r.command), r.status, r.exitCode, output, None, None)
  }

  predicate Enabled(w: World, e: Event) {
    match e
    case Server(se) => !se.Complete? && (se.Create? ==> se.command.Command?)
    case SendJob(id) => id < |w.tables.jobs| && RequestFor(w.tables.jobs[id]).Ok?
    case SendRefresh(_, _, _) => true
    case OnAgent(d, ae) => AgentJournal.Enabled(AgentOf(w, d), ae) && (ae.Deliver? ==> Frame(d, ae.request) in w.frames)
    case Receive(d, reply, _, _) => reply in AgentOf(w, d).replies
  }

  function Apply(w: World, e: Event): World
    requires Enabled(w, e)
  {
    match e
    case Server(se) => w.(tables := JobTable.Apply(w.tables, se))
    case SendJob(id) =>
      var j := w.tables.jobs[id];
      w.(frames := w.frames + {Frame(j.device, RequestFor(j).value)})
    case SendRefresh(d, n, expiresAt) => w.(frames := w.frames + {Frame(d, RefreshRequest(n, expiresAt))})
    case OnAgent(d, ae) => w.(agents := w.agents[d := AgentJournal.Apply(AgentOf(w, d), ae)])
    case Receive(_, reply, output, now) =>
      w.(tables := JobTable.Apply(w.tables, JobTable.Complete(JobTable.ReportOf(ResultFrame(reply, output), now))))
  }

  function After(w: World, es: seq<Event>): World {
    if es == [] then w
    else
      var before := After(w, es[..|es| - 1]);
      if Enabled(before, es[|es| - 1]) then Apply(before, es[|es| - 1]) else before
  }

  predicate Legal(w: World, es: seq<Event>) {
    es == [] || (Legal(w, es[..|es| - 1]) && Enabled(After(w, es[..|es| - 1]), es[|es| - 1]))
  }

  ghost predicate Reachable(w: World) {
    exists es :: Legal(Start, es) && After(Start, es) == w
  }

  lemma ReachableStep(w: World, e: Event)
    requires Reachable(w) && Enabled(w, e)
    ensures Reachable(Apply(w, e))
  {
    var es :| Legal(Start, es) && After(Start, es) == w;
    assert (es + [e])[..|es|] == es;
    assert Legal(Start, es + [e]) && After(Start, es + [e]) == Apply(w, e);
  }

  // ---------------------------------------------------------------------
  // What an agent's replies rest on

  /** The agent ran this request and the run ended with exit code 0. */
  ghost predicate RanToZero(a: Agent, r: Request) {
    exists run :: run in a.ended && run.request == r && EndedWithZero(run.outcome)
  }

  /** A claimed success of a request that reaches the runner rests on such a run. */
  ghost predicate Backed(a: Agent, r: Request, status: CommandStatus) {
    status.StatusSucceeded? && AgentJournal.Runnable(r) ==> RanToZero(a, r)
  }

  ghost predicate GoroutineOk(frames: set<Frame>, d: nat, a: Agent, g: AgentJournal.Goroutine) {
    && Frame(d, g.request) in frames
    && (g.phase.Finished? ==> Backed(a, g.request, StatusFor(g.phase.result)))
    && (g.phase.Recorded? ==> Backed(a, g.request, g.phase.status))
  }

  ghost predicate ReplyOk(frames: set<Frame>, d: nat, a: Agent, reply: Reply) {
    exists r :: Frame(d, r) in frames && r.command == reply.command && Backed(a, r, reply.status)
  }

  ghost predicate AgentOk(frames: set<Frame>, d: nat, a: Agent) {
    && (forall g :: 0 <= g < |a.gs| ==> GoroutineOk(frames, d, a, a.gs[g]))
    && (forall reply :: reply in a.replies ==> ReplyOk(frames, d, a, reply))
  }

  lemma StillBacked(a: Agent, b: Agent, r: Request, status: CommandStatus)
    requires Backed(a, r, status) && a.ended <= b.ended
    ensures Backed(b, r, status)
  {
  }

  lemma GoroutineStaysOk(frames: set<Frame>, d: nat, a: Agent, e: AgentJournal.Event, g: nat)
    requires AgentOk(frames, d, a) && AgentJournal.Enabled(a, e) && (e.Deliver? ==> Frame(d, e.request) in frames)
    requires g < |AgentJournal.Apply(a, e).gs|
    ensures GoroutineOk(frames, d, AgentJournal.Apply(a, e), AgentJournal.Apply(a, e).gs[g])
  {
    var b := AgentJournal.Apply(a, e);
    if g < |a.gs| {
      assert GoroutineOk(frames, d, a, a.gs[g]);
      if e.End? && e.g == g {
        var r := a.gs[g].request;
        if StatusFor(ResultOf(r.kind, e.outcome)).StatusSucceeded? {
          ReportedStatus(r.kind, e.outcome);
          assert AgentJournal.Run(r, e.outcome) in b.ended;
        }
      }
    }
  }

  lemma ReplyStaysOk(frames: set<Frame>, d: nat, a: Agent, e: AgentJournal.Event, reply: Reply)
    requires AgentOk(frames, d, a) && AgentJournal.Enabled(a, e) && (e.Deliver? ==> Frame(d, e.request) in frames)
    requires reply in AgentJournal.Apply(a, e).replies
    ensures ReplyOk(frames, d, AgentJournal.Apply(a, e), reply)
  {
  }

  lemma AgentStaysOk(frames: set<Frame>, d: nat, a: Agent, e: AgentJournal.Event)
    requires AgentOk(frames, d, a) && AgentJournal.Enabled(a, e) && (e.Deliver? ==> Frame(d, e.request) in frames)
    ensures AgentOk(frames, d, AgentJournal.Apply(a, e))
  {
    var b := AgentJournal.Apply(a, e);
    forall g | 0 <= g < |b.gs|
      ensures GoroutineOk(frames, d, b, b.gs[g])
    {
      GoroutineStaysOk(frames, d, a, e, g);
    }
    forall reply | reply in b.replies
      ensures ReplyOk(frames, d, b, reply)
    {
      ReplyStaysOk(frames, d, a, e, reply);
    }
  }

  lemma MoreFramesKeepAgentOk(frames: set<Frame>, more: set<Frame>, d: nat, a: Agent)
    requires AgentOk(frames, d, a) && frames <= more
    ensures AgentOk(more, d, a)
  {
  }

  // ---------------------------------------------------------------------
  // The invariant of the whole system

  /** The frame was built from a job of that device, or is an inventory refresh. */
  ghost predicate Genuine(jobs: seq<JobTable.Job>, f: Frame) {
    || (f.request.command.Refresh? && f.request.kind.InventoryRefresh?)
    || exists k :: 0 <= k < |jobs| && jobs[k].device == f.device && RequestFor(jobs[k]) == Ok(f.request)
  }

  /** A job recorded as succeeded: its request reached its device, and ran to exit code 0 if it ran. */
  ghost predicate JobOk(w: World, j: JobTable.Job) {
    && j.command.Command?
    && (j.status.Succeeded? ==>
          RequestFor(j).Ok? && Backed(AgentOf(w, j.device), RequestFor(j).value, StatusSucceeded))
  }

  ghost predicate Inv(w: World) {
    && JobTable.Inv(w.tables)
    && (forall f :: f in w.frames ==> Genuine(w.tables.jobs, f))
    && (forall d :: AgentOk(w.frames, d, AgentOf(w, d)))
    && (forall k :: 0 <= k < |w.tables.jobs| ==> JobOk(w, w.tables.jobs[k]))
  }

  lemma GenuineStays(t: JobTable.Tables, e: JobTable.Event, f: Frame)
    requires JobTable.Inv(t) && JobTable.Possible(e) && Genuine(t.jobs, f)
    ensures Genuine(JobTable.Apply(t, e).jobs, f)
  {
    if k :| 0 <= k < |t.jobs| && t.jobs[k].device == f.device && RequestFor(t.jobs[k]) == Ok(f.request) {
      JobTable.StepKeeps(t, e, k);
      assert RequestFor(JobTable.Apply(t, e).jobs[k]) == Ok(f.request);
    }
  }

  lemma ServerKeepsInv(w: World, e: Event)
    requires Inv(w) && e.Server? && Enabled(w, e)
    ensures Inv(Apply(w, e))
  {
    var w' := Apply(w, e);
    JobTable.StepKeepsInv(w.tables, e.statement);
    forall f | f in w'.frames
      ensures Genuine(w'.tables.jobs, f)
    {
      GenuineStays(w.tables, e.statement, f);
    }
    forall k | 0 <= k < |w'.tables.jobs|
      ensures JobOk(w', w'.tables.jobs[k])
    {
      if k < |w.tables.jobs| {
        JobTable.StepKeeps(w.tables, e.statement, k);
        assert JobOk(w, w.tables.jobs[k]);
      }
    }
    forall d
      ensures AgentOk(w'.frames, d, AgentOf(w', d))
    {
      assert AgentOk(w.frames, d, AgentOf(w, d));
    }
  }

  lemma SendKeepsInv(w: World, f: Frame)
    requires Inv(w) && Genuine(w.tables.jobs, f)
    ensures Inv(w.(frames := w.frames + {f}))
  {
    var w' := w.(frames := w.frames + {f});
    forall d
      ensures AgentOk(w'.frames, d, AgentOf(w', d))
    {
      assert AgentOk(w.frames, d, AgentOf(w, d));
      MoreFramesKeepAgentOk(w.frames, w'.frames, d, AgentOf(w, d));
    }
    forall k | 0 <= k < |w'.tables.jobs|
      ensures JobOk(w', w'.tables.jobs[k])
    {
      assert JobOk(w, w.tables.jobs[k]);
    }
  }

  lemma AgentKeepsInv(w: World, e: Event)
    requires Inv(w) && e.OnAgent? && Enabled(w, e)
    ensures Inv(Apply(w, e))
  {
    var w' := Apply(w, e);
    var a, b := AgentOf(w, e.device), AgentOf(w', e.device);
    assert AgentOk(w.frames, e.device, a);
    AgentStaysOk(w.frames, e.device, a, e.step);
    forall d
      ensures AgentOk(w'.frames, d, AgentOf(w', d))
    {
      assert AgentOk(w.frames, d, AgentOf(w, d));
    }
    forall k | 0 <= k < |w'.tables.jobs|
      ensures JobOk(w', w'.tables.jobs[k])
    {
      var j := w.tables.jobs[k];
      assert JobOk(w, j);
      if j.status.Succeeded? && j.device == e.device {
        StillBacked(a, b, RequestFor(j).value, StatusSucceeded);
      }
    }
  }

  /** Unique command ids: a reply for a job's command can only come from that job's own frames. */
  lemma ReplyIsForItsJob(w: World, d: nat, r: Request, k: nat)
    requires Inv(w) && Frame(d, r) in w.frames
    requires k < |w.tables.jobs| && w.tables.jobs[k].command == r.command
    ensures w.tables.jobs[k].device == d && RequestFor(w.tables.jobs[k]) == Ok(r)
  {
  }

  lemma ReceivedJobOk(w: World, e: Event, k: nat)
    requires Inv(w) && e.Receive? && Enabled(w, e)
    requires k < |w.tables.jobs| && k < |Apply(w, e).tables.jobs|
    ensures JobOk(Apply(w, e), Apply(w, e).tables.jobs[k])
  {
  }

  lemma ReceiveKeepsInv(w: World, e: Event)
    requires Inv(w) && e.Receive? && Enabled(w, e)
    ensures Inv(Apply(w, e))
  {
    var w' := Apply(w, e);
    var complete := JobTable.Complete(JobTable.ReportOf(ResultFrame(e.reply, e.output), e.now));
    JobTable.ReportsClose(ResultFrame(e.reply, e.output), e.now);
    JobTable.StepKeepsInv(w.tables, complete);
    forall f | f in w'.frames
      ensures Genuine(w'.tables.jobs, f)
    {
      GenuineStays(w.tables, complete, f);
    }
    forall k | 0 <= k < |w'.tables.jobs|
      ensures JobOk(w', w'.tables.jobs[k])
    {
      ReceivedJobOk(w, e, k);
    }
    forall d
      ensures AgentOk(w'.frames, d, AgentOf(w', d))
    {
      assert AgentOk(w.frames, d, AgentOf(w, d));
    }
  }

  lemma StepKeepsInv(w: World, e: Event)
    requires Inv(w) && Enabled(w, e)
    ensures Inv(Apply(w, e))
  {
    match e {
      case Server(_) => ServerKeepsInv(w, e);
      case SendJob(id) => SendKeepsInv(w, Frame(w.tables.jobs[id].device, RequestFor(w.tables.jobs[id]).value));
      case SendRefresh(d, n, expiresAt) => SendKeepsInv(w, Frame(d, RefreshRequest(n, expiresAt)));
      case OnAgent(_, _) => AgentKeepsInv(w, e);
      case Receive(_, _, _, _) => ReceiveKeepsInv(w, e);
    }
  }

  lemma {:induction false} RunKeepsInv(w: World, es: seq<Event>)
    requires Inv(w) && Legal(w, es)
    ensures Inv(After(w, es))
  {
    if es != [] {
      RunKeepsInv(w, es[..|es| - 1]);
      StepKeepsInv(After(w, es[..|es| - 1]), es[|es| - 1]);
    }
  }

  lemma ReachableInv(w: World)
    requires Reachable(w)
    ensures Inv(w)
  {
    var es :| Legal(Start, es) && After(Start, es) == w;
    RunKeepsInv(Start, es);
  }

  // ---------------------------------------------------------------------
  // Succeeded means executed

  /** A spec the agent can parse: every script the gateway packs, and every well-formed package spec. */
  predicate WellFormed(work: Work) {
    work.PackageWork? ==> ParsePackageSpec(work.spec).Ok?
  }

  /** The job's own device ran the job's own request, and the run ended with exit code 0. */
  ghost predicate Executed(w: World, j: JobTable.Job) {
    RequestFor(j).Ok? && RanToZero(AgentOf(w, j.device), RequestFor(j).value)
  }

  lemma WellFormedIsRunnable(j: JobTable.Job)
    requires RequestFor(j).Ok?
    ensures AgentJournal.Runnable(RequestFor(j).value) <==> WellFormed(j.work)
  {
    if j.work.ScriptWork? {
      ScriptSpecRoundTrip(j.work.language, j.work.body, j.work.params);
    }
  }

  /**
   The frame carries the row's own work: its command and expiry, a package spec verbatim under
   the kind that installs or removes, or the script with its parameters.  Only a script whose stored
   parameters are no flat object of strings has no frame.
   */
  lemma RequestCarriesTheWork(j: JobTable.Job)
    ensures RequestFor(j).Ok? <==> (j.work.ScriptWork? ==> Texts(j.work.params).Ok?)
    ensures RequestFor(j).Ok? ==>
      var r := RequestFor(j).value;
      && r.command == j.command && r.expiresAt == Some(j.expiresAt)
      && match j.work
         case PackageWork(install, spec) => r.spec == spec && r.kind == if install then PackageInstall else PackageRemove
         case ScriptWork(language, body, params) =>
           r.kind == Script && ParseSpec(r.spec) == Ok(ScriptSpec(language, body, Texts(params).value))
  {
    if j.work.ScriptWork? && RequestFor(j).Ok? {
      ScriptSpecRoundTrip(j.work.language, j.work.body, j.work.params);
    }
  }

  /**
   End to end, over every interleaving and every loss, repetition and reordering of frames: a
   job recorded as succeeded was run by its own device under its own command id, and that run
   ended with exit code 0.
   */
  lemma SucceededWasExecuted(w: World, k: nat)
    requires Reachable(w) && k < |w.tables.jobs| && w.tables.jobs[k].status.Succeeded?
    requires WellFormed(w.tables.jobs[k].work)
    ensures Executed(w, w.tables.jobs[k])
  {
    ReachableInv(w);
    assert JobOk(w, w.tables.jobs[k]);
    WellFormedIsRunnable(w.tables.jobs[k]);
  }

  ghost predicate SuccessAlwaysExecuted(work: Work) {
    forall w, k ::
      (Reachable(w) && 0 <= k < |w.tables.jobs| && w.tables.jobs[k].work == work && w.tables.jobs[k].status.Succeeded?)
      ==> Executed(w, w.tables.jobs[k])
  }

  /** The property holds for exactly the work whose spec the agent can parse. */
  lemma SuccessAlwaysExecutedIff(work: Work)
    ensures SuccessAlwaysExecuted(work) <==> WellFormed(work)
  {
    if WellFormed(work) {
      forall w, k | Reachable(w) && 0 <= k < |w.tables.jobs| && w.tables.jobs[k].work == work && w.tables.jobs[k].status.Succeeded?
        ensures Executed(w, w.tables.jobs[k])
      {
        SucceededWasExecuted(w, k);
      }
    } else {
      var w := MalformedSpecSucceeds(work);
      assert w.tables.jobs[0].work == work && !Executed(w, w.tables.jobs[0]);
    }
  }

  function JobOf(work: Work): JobTable.Job {
    JobTable.NewJob(Command(0), 0, work, 0, 0)
  }

  /** A package spec the agent cannot parse leaves no error and exit code 0: reported as succeeded. */
  lemma MalformedSpecSucceeds(work: Work) returns (w: World)
    requires !WellFormed(work)
    ensures Reachable(w) && |w.tables.jobs| == 1
    ensures var j := w.tables.jobs[0];
      j.work == work && j.status.Succeeded? && AgentOf(w, j.device).ended == {}
  {
    var r := RequestFor(JobOf(work)).value;
    w := JobIsSent(work);
    w := MalformedSpecIsAnswered(w, r);
    var reply := AgentJournal.Reply(Command(0), StatusSucceeded, 0);
    ReachableStep(w, Receive(0, reply, "", 0));
    SuccessIsRecorded(w, reply);
    w := Apply(w, Receive(0, reply, "", 0));
  }

  lemma SuccessIsRecorded(w: World, reply: Reply)
    requires |w.tables.jobs| == 1 && w.tables.jobs[0].status.Pending?
    requires w.tables.jobs[0].command == reply.command && reply.status.StatusSucceeded?
    requires Enabled(w, Receive(0, reply, "", 0))
    ensures var w' := Apply(w, Receive(0, reply, "", 0));
      |w'.tables.jobs| == 1 && w'.tables.jobs[0].status.Succeeded? && w'.agents == w.agents
      && w'.tables.jobs[0].work == w.tables.jobs[0].work && w'.tables.jobs[0].device == w.tables.jobs[0].device
  {
    assert JobTable.Matches(w.tables.jobs[0], JobTable.ReportOf(ResultFrame(reply, ""), 0));
  }

  /** Any job the gateway can build a frame for can be created and sent. */
  lemma JobIsSent(work: Work) returns (w: World)
    requires RequestFor(JobOf(work)).Ok?
    ensures Reachable(w) && w.tables.jobs == [JobOf(work)] && w.agents == map[]
    ensures w.frames == {Frame(0, RequestFor(JobOf(work)).value)}
  {
    var create := Server(JobTable.Create(Command(0), 0, work, 0, 0));
    assert Legal(Start, []) && After(Start, []) == Start;
    ReachableStep(Start, create);
    var created := Apply(Start, create);
    ReachableStep(created, SendJob(0));
    w := Apply(created, SendJob(0));
  }

  lemma MalformedSpecIsAnswered(w: World, r: Request) returns (w': World)
    requires Reachable(w) && w.agents == map[] && Frame(0, r) in w.frames
    requires !AgentJournal.Runnable(r) && !r.kind.InventoryRefresh? && r.expiresAt == Some(0)
    ensures Reachable(w') && w'.tables == w.tables && AgentOf(w', 0).ended == {}
    ensures AgentJournal.Reply(r.command, StatusSucceeded, 0) in AgentOf(w', 0).replies
  {
    var es := AgentJournal.SoloEvents(AgentJournal.Init, r, 0, NotStarted, true);
    AgentJournal.SoloSteps(AgentJournal.Init, r, 0, NotStarted, true);
    w' := AgentRunHappens(w, 0, es);
  }

  /** Any run of the agent's code on frames it was sent can happen in the whole system. */
  lemma {:induction false} AgentRunHappens(w: World, d: nat, es: seq<AgentJournal.Event>) returns (w': World)
    requires Reachable(w) && AgentJournal.Legal(AgentOf(w, d), es)
    requires forall k :: 0 <= k < |es| && es[k].Deliver? ==> Frame(d, es[k].request) in w.frames
    ensures Reachable(w') && w'.tables == w.tables && w'.frames == w.frames
    ensures AgentOf(w', d) == AgentJournal.After(AgentOf(w, d), es)
  {
    w' := w;
    if es != [] {
      var before, e := es[..|es| - 1], es[|es| - 1];
      assert forall k :: 0 <= k < |before| ==> before[k] == es[k];
      w' := AgentRunHappens(w, d, before);
      ReachableStep(w', OnAgent(d, e));
      w' := Apply(w', OnAgent(d, e));
    }
  }

  // ---------------------------------------------------------------------
  // Unanswered jobs

  /** The device has the job's command on disk, will not reply to it again and never has. */
  ghost predicate Unanswered(w: World, k: nat) {
    && k < |w.tables.jobs|
    && var j := w.tables.jobs[k];
    var a := AgentOf(w, j.device);
    && a.durable <= a.mem && j.command in a.durable && AgentJournal.NoneToReply(a, j.command)
    && (forall r :: AgentJournal.IsReplyTo(r, j.command) ==> r !in a.replies)
  }

  ghost predicate OpenOrSwept(t: JobTable.Tables, k: nat) {
    k < |t.jobs| && (JobTable.Closed(t.jobs[k]) ==> t.jobs[k].status.Expired? && k !in t.outputs)
  }

  lemma StepStaysUnanswered(w: World, e: Event, k: nat)
    requires Inv(w) && Enabled(w, e) && Unanswered(w, k)
    ensures Unanswered(Apply(w, e), k)
    ensures Apply(w, e).tables.jobs[k].device == w.tables.jobs[k].device
    ensures e.OnAgent? || e.SendJob? || e.SendRefresh? ==> Apply(w, e).tables == w.tables
  {
    var j := w.tables.jobs[k];
    match e {
      case Server(se) => JobTable.StepKeeps(w.tables, se, k);
      case Receive(_, reply, output, now) =>
        JobTable.ReportsClose(ResultFrame(reply, output), now);
        JobTable.StepKeeps(w.tables, JobTable.Complete(JobTable.ReportOf(ResultFrame(reply, output), now)), k);
      case OnAgent(d, ae) =>
        if d == j.device {
          AgentJournal.StepStaysSilent(AgentOf(w, d), ae, j.command);
          StepKeepsJournals(AgentOf(w, d), ae);
        }
      case SendJob(_) =>
      case SendRefresh(_, _, _) =>
    }
  }

  lemma StepKeepsJournals(a: Agent, e: AgentJournal.Event)
    requires AgentJournal.Enabled(a, e) && a.durable <= a.mem
    ensures a.durable <= AgentJournal.Apply(a, e).durable <= AgentJournal.Apply(a, e).mem
  {
  }

  lemma StepStaysOpenOrSwept(w: World, e: Event, k: nat)
    requires Inv(w) && Enabled(w, e) && Unanswered(w, k) && OpenOrSwept(w.tables, k)
    ensures OpenOrSwept(Apply(w, e).tables, k)
  {
    var w' := Apply(w, e);
    StepStaysUnanswered(w, e, k);
    if JobTable.Closed(w'.tables.jobs[k]) && !JobTable.Closed(w.tables.jobs[k]) {
      if e.Receive? {
        var complete := JobTable.Complete(JobTable.ReportOf(ResultFrame(e.reply, e.output), e.now));
        JobTable.ClosingStep(w.tables, complete, k);
        assert AgentOk(w.frames, e.device, AgentOf(w, e.device));
        assert ReplyOk(w.frames, e.device, AgentOf(w, e.device), e.reply);
        var r :| Frame(e.device, r) in w.frames && r.command == e.reply.command;
        ReplyIsForItsJob(w, e.device, r, k);
        assert AgentJournal.IsReplyTo(e.reply, w.tables.jobs[k].command);
        assert false;
      } else {
        JobTable.ClosingStep(w.tables, e.statement, k);
      }
    } else if JobTable.Closed(w.tables.jobs[k]) {
      match e {
        case Server(se) => JobTable.StepKeeps(w.tables, se, k);
        case Receive(_, reply, output, now) =>
          JobTable.ReportsClose(ResultFrame(reply, output), now);
          JobTable.StepKeeps(w.tables, JobTable.Complete(JobTable.ReportOf(ResultFrame(reply, output), now)), k);
        case OnAgent(_, _) =>
        case SendJob(_) =>
        case SendRefresh(_, _, _) =>
      }
    }
  }

  /**
   The price of journalling before replying: if the agent crashed after recording a command and
   before its reply went out, then whatever is redelivered, nothing but the expiry sweep can
   ever close the job.
   */
  lemma {:induction false} UnansweredJobIsOnlySwept(w: World, es: seq<Event>, k: nat)
    requires Inv(w) && Legal(w, es) && Unanswered(w, k) && OpenOrSwept(w.tables, k)
    ensures Unanswered(After(w, es), k) && OpenOrSwept(After(w, es).tables, k)
  {
    if es != [] {
      var before := es[..|es| - 1];
      UnansweredJobIsOnlySwept(w, before, k);
      RunKeepsInv(w, before);
      StepStaysUnanswered(After(w, before), es[|es| - 1], k);
      StepStaysOpenOrSwept(After(w, before), es[|es| - 1], k);
    }
  }

  /** And this happens: a job run to whatever end, on record at its device, and never answered. */
  lemma UnansweredIsReachable(work: Work, o: Outcome) returns (w: World)
    requires RequestFor(JobOf(work)).Ok?
    requires AgentJournal.Runnable(RequestFor(JobOf(work)).value)
    requires !AgentJournal.Startable(RequestFor(JobOf(work)).value) ==> o.NotStarted?
    ensures Reachable(w) && Unanswered(w, 0) && w.tables.jobs == [JobOf(work)]
    ensures AgentOf(w, 0).ended == {AgentJournal.Run(RequestFor(JobOf(work)).value, o)}
  {
    var r := RequestFor(JobOf(work)).value;
    w := JobIsSent(work);
    w := DiesBeforeReply(w, r, o);
  }

  lemma DiesBeforeReply(w: World, r: Request, o: Outcome) returns (w': World)
    requires Reachable(w) && w.agents == map[] && Frame(0, r) in w.frames && r.expiresAt == Some(0)
    requires AgentJournal.Runnable(r) && (!AgentJournal.Startable(r) ==> o.NotStarted?)
    ensures Reachable(w') && w'.tables == w.tables && AgentOf(w', 0) == AgentJournal.DiedBeforeReply(r, o)
  {
    AgentJournal.CrashBeforeReply(r, 0, o);
    var es := [AgentJournal.Deliver(r), AgentJournal.Check(0), AgentJournal.Decide(0, 0)]
      + [AgentJournal.End(0, o)] + [AgentJournal.Record(0, true)] + [AgentJournal.Crash];
    w' := AgentRunHappens(w, 0, es);
  }

  // ---------------------------------------------------------------------
  // The parts of a run are runs of the parts

  /** The table goes through a run of the job table, so everything proved there holds here. */
  lemma {:induction false} TablesFollowTheStore(es: seq<Event>) returns (ts: seq<JobTable.Event>)
    requires Legal(Start, es)
    ensures JobTable.IsRun(ts) && JobTable.After(ts) == After(Start, es).tables
  {
    ts := [];
    if es != [] {
      var e := es[|es| - 1];
      ts := TablesFollowTheStore(es[..|es| - 1]);
      if e.Server? {
        JobTable.OneMore(ts, e.statement);
        ts := ts + [e.statement];
      } else if e.Receive? {
        var complete := JobTable.Complete(JobTable.ReportOf(ResultFrame(e.reply, e.output), e.now));
        JobTable.ReportsClose(ResultFrame(e.reply, e.output), e.now);
        JobTable.OneMore(ts, complete);
        ts := ts + [complete];
      }
    }
  }

  /** Each agent goes through a run of the journal machine. */
  lemma {:induction false} AgentsFollowTheCode(es: seq<Event>, d: nat) returns (ts: seq<AgentJournal.Event>)
    requires Legal(Start, es)
    ensures AgentJournal.Legal(AgentJournal.Init, ts)
    ensures AgentJournal.After(AgentJournal.Init, ts) == AgentOf(After(Start, es), d)
  {
    ts := [];
    if es != [] {
      var e := es[|es| - 1];
      ts := AgentsFollowTheCode(es[..|es| - 1], d);
      if e.OnAgent? && e.device == d {
        AgentJournal.OneMore(AgentJournal.Init, ts, e.step);
        ts := ts + [e.step];
      }
    }
  }
}
