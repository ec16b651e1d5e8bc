/**
 Command execution on the agent (agent/internal/conn/conn.go:317-421) and its journal of executed
 commands (agent/internal/exec/exec.go:220-275).

 Every delivered request runs in a goroutine of its own; the steps below are the points between
 which goroutines interleave and the process may crash.  A frame without a command id is dropped
 on arrival and has no event.
 */
module AgentJournal {
  import opened Wrappers
  import opened Commands

  datatype Request = Request(command: CommandId, kind: CommandKind, spec: Json, expiresAt: Option<int>)

  datatype Phase =
    | Delivered                      // started, journal not consulted yet
    | Checked                        // the journal did not hold the command
    | Late                           // past its expiry: to be recorded and reported as expired
    | Running                        // RunScript or RunPackage has been called
    | Finished(result: ExecResult)
    | Recorded(status: CommandStatus, exitCode: int)
    | Done

  datatype Goroutine = Goroutine(request: Request, phase: Phase)

  datatype Reply = Reply(command: CommandId, status: CommandStatus, exitCode: int)

  datatype Run = Run(request: Request, outcome: Outcome)

  /** The agent with its two journals, and the history the properties speak about. */
  datatype Agent = Agent(
    mem: set<CommandId>, durable: set<CommandId>, gs: seq<Goroutine>,
    launched: multiset<CommandId>,   // calls of RunScript and RunPackage
    ended: set<Run>, replies: set<Reply>,
    crashes: seq<set<CommandId>>)    // the durable journal at each crash

  const Init := Agent({}, {}, [], multiset{}, {}, {}, [])

  datatype Event =
    | Deliver(request: Request)
    | Check(g: nat)
    | Decide(g: nat, now: int)
    | End(g: nat, outcome: Outcome)
    | Record(g: nat, written: bool)  // `written`: the temporary file was written and renamed
    | Send(g: nat)
    | Crash

  predicate Expired(r: Request, now: int) {
    r.expiresAt.Some? && now > r.expiresAt.value
  }

  /** The spec parses, so the runner is called. */
  predicate Runnable(r: Request) {
    (r.kind.Script? && ParseSpec(r.spec).Ok?)
    || ((r.kind.PackageInstall? || r.kind.PackageRemove?) && ParsePackageSpec(r.spec).Ok?)
  }

  /** The runner gets past its own checks: a supported language, at least one package. */
  predicate Startable(r: Request)
    requires Runnable(r)
  {
    if r.kind.Script? then ParseSpec(r.spec).value.language in {"bash", "python", "powershell", "batch"}
    else ParsePackageSpec(r.spec).value != []
  }

  predicate At(a: Agent, g: nat, p: Phase) {
    g < |a.gs| && a.gs[g].phase == p
  }

  predicate Enabled(a: Agent, e: Event) {
    match e
    case Deliver(_) => true
    case Check(g) => At(a, g, Delivered)
    case Decide(g, _) => At(a, g, Checked)
    case End(g, o) => At(a, g, Running) && Runnable(a.gs[g].request) && (!Startable(a.gs[g].request) ==> o.NotStarted?)
    case Record(g, _) => g < |a.gs| && (a.gs[g].phase.Finished? || a.gs[g].phase.Late?)
    case Send(g) => g < |a.gs| && a.gs[g].phase.Recorded?
    case Crash => true
  }

  function Move(a: Agent, g: nat, p: Phase): Agent
    requires g < |a.gs|
  {
    a.(gs := a.gs[g := a.gs[g].(phase := p)])
  }

  function ApplyDecide(a: Agent, g: nat, now: int): Agent
    requires g < |a.gs|
  {
    var r := a.gs[g].request;
    if Expired(r, now) then Move(a, g, Late)
    else if r.kind.InventoryRefresh? then
      Move(a, g, Done).(replies := a.replies + {Reply(r.command, StatusSucceeded, 0)})
    else if Runnable(r) then Move(a, g, Running).(launched := a.launched + multiset{r.command})
    else Move(a, g, Finished(ExecResult(0, None)))  // a bad spec or an unsupported kind
  }

  function ReplyPhase(p: Phase): Phase
    requires p.Finished? || p.Late?
  {
    if p.Late? then Recorded(StatusExpired, 0) else Recorded(StatusFor(p.result), p.result.exitCode)
  }

  function Apply(a: Agent, e: Event): Agent
    requires Enabled(a, e)
  {
    match e
    case Deliver(r) => a.(gs := a.gs + [Goroutine(r, Delivered)])
    case Check(g) => Move(a, g, if a.gs[g].request.command in a.mem then Done else Checked)
    case Decide(g, now) => ApplyDecide(a, g, now)
    case End(g, o) =>
      Move(a, g, Finished(ResultOf(a.gs[g].request.kind, o))).(ended := a.ended + {Run(a.gs[g].request, o)})
    case Record(g, written) =>
      var mem := a.mem + {a.gs[g].request.command};
      Move(a, g, ReplyPhase(a.gs[g].phase)).(mem := mem, durable := if written then mem else a.durable)
    case Send(g) =>
      var p := a.gs[g].phase;
      Move(a, g, Done).(replies := a.replies + {Reply(a.gs[g].request.command, p.status, p.exitCode)})
    case Crash => a.(gs := [], mem := a.durable, crashes := a.crashes + [a.durable])
  }

  predicate Legal(a: Agent, es: seq<Event>) {
    es == [] || (Legal(a, es[..|es| - 1]) && Enabled(After(a, es[..|es| - 1]), es[|es| - 1]))
  }

  /** The state after a run; beyond an event that cannot happen there it stays put. */
  function After(a: Agent, es: seq<Event>): Agent {
    if es == [] then a
    else
      var before := After(a, es[..|es| - 1]);
      if Enabled(before, es[|es| - 1]) then Apply(before, es[|es| - 1]) else before
  }

  lemma OneMore(a: Agent, es: seq<Event>, e: Event)
    ensures Legal(a, es + [e]) <==> Legal(a, es) && Enabled(After(a, es), e)
    ensures Enabled(After(a, es), e) ==> After(a, es + [e]) == Apply(After(a, es), e)
  {
    assert (es + [e])[..|es|] == es;
  }

  lemma ThreeMore(a: Agent, es: seq<Event>, e: Event, f: Event, g: Event)
    requires Legal(a, es) && Enabled(After(a, es), e) && Enabled(Apply(After(a, es), e), f)
    requires Enabled(Apply(Apply(After(a, es), e), f), g)
    ensures Legal(a, es + [e] + [f] + [g]) && After(a, es + [e] + [f] + [g]) == Apply(Apply(Apply(After(a, es), e), f), g)
  {
    OneMore(a, es, e);
    OneMore(a, es + [e], f);
    OneMore(a, es + [e] + [f], g);
  }

  // ---------------------------------------------------------------------
  // The two journals

  /**
   Over every run: the journal on disk only grows and never holds more than the one in memory,
   whatever writes fail and wherever the process crashes.
   */
  lemma {:induction false} JournalsGrow(a: Agent, es: seq<Event>)
    requires Legal(a, es) && a.durable <= a.mem
    ensures a.durable <= After(a, es).durable <= After(a, es).mem
  {
    if es != [] {
      JournalsGrow(a, es[..|es| - 1]);
    }
  }

  // ---------------------------------------------------------------------
  // What is run at all

  /** The clock has not passed the expiry, and the runner can be called. */
  ghost predicate MayRun(r: Request, now: int) {
    && (r.expiresAt.None? || now <= r.expiresAt.value)
    && ((r.kind == Script && ParseSpec(r.spec).Ok?)
        || (r.kind in {PackageInstall, PackageRemove} && ParsePackageSpec(r.spec).Ok?))
  }

  /** Event `n` of the run is a goroutine with command `c` deciding in time on a request that can be run. */
  ghost predicate RunsAt(a: Agent, es: seq<Event>, n: int, c: CommandId) {
    && 0 <= n < |es| && es[n].Decide? && es[n].g < |After(a, es[..n]).gs|
    && After(a, es[..n]).gs[es[n].g].request.command == c
    && MayRun(After(a, es[..n]).gs[es[n].g].request, es[n].now)
  }

  ghost function Launches(a: Agent, es: seq<Event>, c: CommandId): set<int> {
    set n | 0 <= n < |es| && RunsAt(a, es, n, c)
  }

  lemma OneMoreLaunch(a: Agent, es: seq<Event>, c: CommandId)
    requires es != []
    ensures Launches(a, es, c) == Launches(a, es[..|es| - 1], c) + if RunsAt(a, es, |es| - 1, c) then {|es| - 1} else {}
  {
    var before := es[..|es| - 1];
    forall n | 0 <= n < |es| - 1
      ensures RunsAt(a, es, n, c) <==> RunsAt(a, before, n, c)
    {
      assert before[..n] == es[..n] && before[n] == es[n];
    }
  }

  /**
   Over every run, the runner is called for a command exactly once for each goroutine that decides
   about it no later than its expiry, with a spec that parses; never after the expiry.
   */
  lemma {:induction false} LaunchesAreTimely(a: Agent, es: seq<Event>, c: CommandId)
    requires Legal(a, es)
    ensures After(a, es).launched[c] == a.launched[c] + |Launches(a, es, c)|
  {
    if es == [] {
      assert Launches(a, es, c) == {};
    } else {
      var before := es[..|es| - 1];
      LaunchesAreTimely(a, before, c);
      OneMoreLaunch(a, es, c);
      StepLaunches(After(a, before), es[|es| - 1], c);
    }
  }

  lemma StepLaunches(a: Agent, e: Event, c: CommandId)
    requires Enabled(a, e)
    ensures Apply(a, e).launched[c] == a.launched[c]
      + if e.Decide? && a.gs[e.g].request.command == c && MayRun(a.gs[e.g].request, e.now) then 1 else 0
  {
  }

  /** The goroutine holds `r` and has it, or had it, to report as expired; once done, it has reported that. */
  ghost predicate OnlyExpires(a: Agent, g: nat, r: Request) {
    && g < |a.gs| && a.gs[g].request == r
    && (a.gs[g].phase in {Late, Recorded(StatusExpired, 0), Done})
    && (a.gs[g].phase == Done ==> Reply(r.command, StatusExpired, 0) in a.replies)
  }

  /**
   Past the expiry a decision starts nothing, and however the run goes on the goroutine can only
   record the command and send the one reply "expired".
   */
  lemma {:induction false} LateIsReportedExpired(a: Agent, g: nat, now: int, t: int, es: seq<Event>)
    requires Enabled(a, Decide(g, now)) && a.gs[g].request.expiresAt == Some(t) && now > t
    requires Legal(Apply(a, Decide(g, now)), es) && forall k :: 0 <= k < |es| ==> !IsCrash(es[k])
    ensures Apply(a, Decide(g, now)).launched == a.launched
    ensures OnlyExpires(After(Apply(a, Decide(g, now)), es), g, a.gs[g].request)
  {
    if es != [] {
      var before := es[..|es| - 1];
      assert forall k :: 0 <= k < |before| ==> before[k] == es[k];
      LateIsReportedExpired(a, g, now, t, before);
      StaysExpired(After(Apply(a, Decide(g, now)), before), es[|es| - 1], g, a.gs[g].request);
    }
  }

  lemma StaysExpired(a: Agent, e: Event, g: nat, r: Request)
    requires OnlyExpires(a, g, r) && Enabled(a, e) && !IsCrash(e)
    ensures OnlyExpires(Apply(a, e), g, r)
    ensures e == Send(g) ==> Apply(a, e).replies == a.replies + {Reply(r.command, StatusExpired, 0)}
  {
  }

  /** The goroutine has started the command and can neither start it again nor report it as expired. */
  ghost predicate RunsOnce(a: Agent, g: nat, r: Request) {
    && g < |a.gs| && a.gs[g].request == r
    && (a.gs[g].phase in {Running, Done} || a.gs[g].phase.Finished?
        || (a.gs[g].phase.Recorded? && a.gs[g].phase.status in {StatusSucceeded, StatusFailed, StatusTimeout}))
  }

  /** In time, a script or package request that parses is started once by the goroutine that decided. */
  lemma {:induction false} TimelyIsRunOnce(a: Agent, g: nat, now: int, es: seq<Event>)
    requires Enabled(a, Decide(g, now))
    requires a.gs[g].request.expiresAt.None? || now <= a.gs[g].request.expiresAt.value
    requires (a.gs[g].request.kind == Script && ParseSpec(a.gs[g].request.spec).Ok?)
             || (a.gs[g].request.kind in {PackageInstall, PackageRemove} && ParsePackageSpec(a.gs[g].request.spec).Ok?)
    requires Legal(Apply(a, Decide(g, now)), es) && forall k :: 0 <= k < |es| ==> !IsCrash(es[k])
    ensures Apply(a, Decide(g, now)).launched == a.launched + multiset{a.gs[g].request.command}
    ensures RunsOnce(After(Apply(a, Decide(g, now)), es), g, a.gs[g].request)
  {
    if es != [] {
      var before := es[..|es| - 1];
      assert forall k :: 0 <= k < |before| ==> before[k] == es[k];
      TimelyIsRunOnce(a, g, now, before);
      StaysRun(After(Apply(a, Decide(g, now)), before), es[|es| - 1], g, a.gs[g].request);
    }
  }

  lemma StaysRun(a: Agent, e: Event, g: nat, r: Request)
    requires RunsOnce(a, g, r) && Enabled(a, e) && !IsCrash(e)
    ensures RunsOnce(Apply(a, e), g, r)
    ensures !e.Decide? || e.g != g
  {
  }

  /** The run's request could be run, and if it got as far as a process, its language is known or its package list not empty. */
  ghost predicate RunOk(run: Run) {
    var r := run.request;
    && ((r.kind == Script && ParseSpec(r.spec).Ok?) || (r.kind in {PackageInstall, PackageRemove} && ParsePackageSpec(r.spec).Ok?))
    && (run.outcome.Ran? && r.kind == Script ==> ParseSpec(r.spec).value.language in {"bash", "python", "powershell", "batch"})
    && (run.outcome.Ran? && r.kind != Script ==> ParsePackageSpec(r.spec).value != [])
  }

  /** Over every run, whatever ran was a request the runners accept. */
  lemma {:induction false} RunsAreAccepted(es: seq<Event>)
    requires Legal(Init, es)
    ensures forall run :: run in After(Init, es).ended ==> RunOk(run)
  {
    if es != [] {
      RunsAreAccepted(es[..|es| - 1]);
    }
  }

  predicate IsCrash(e: Event) {
    e.Crash?
  }

  // ---------------------------------------------------------------------
  // Overlapping deliveries: who may still run a journalled command

  /** A goroutine that consulted the journal before the command got there, and would run it. */
  predicate IsStraggler(g: Goroutine, c: CommandId) {
    g.phase.Checked? && g.request.command == c && Runnable(g.request)
  }

  function Stragglers(gs: seq<Goroutine>, c: CommandId): nat {
    if gs == [] then 0
    else Stragglers(gs[..|gs| - 1], c) + if IsStraggler(gs[|gs| - 1], c) then 1 else 0
  }

  lemma {:induction false} StragglersAfterMove(gs: seq<Goroutine>, c: CommandId, g: nat, x: Goroutine)
    requires g < |gs|
    ensures Stragglers(gs[g := x], c)
         == Stragglers(gs, c) - (if IsStraggler(gs[g], c) then 1 else 0) + (if IsStraggler(x, c) then 1 else 0)
  {
    if g < |gs| - 1 {
      assert gs[g := x][..|gs| - 1] == gs[..|gs| - 1][g := x];
      StragglersAfterMove(gs[..|gs| - 1], c, g, x);
    } else {
      assert gs[g := x][..|gs| - 1] == gs[..|gs| - 1];
    }
  }

  lemma StragglersAfterDeliver(gs: seq<Goroutine>, c: CommandId, x: Goroutine)
    ensures Stragglers(gs + [x], c) == Stragglers(gs, c) + if IsStraggler(x, c) then 1 else 0
  {
    assert (gs + [x])[..|gs|] == gs;
  }

  lemma {:induction false} NoStragglers(gs: seq<Goroutine>, c: CommandId)
    ensures Stragglers(gs, c) == 0 <==> forall g :: 0 <= g < |gs| ==> !IsStraggler(gs[g], c)
  {
    if gs != [] {
      NoStragglers(gs[..|gs| - 1], c);
      assert forall g :: 0 <= g < |gs| - 1 ==> gs[..|gs| - 1][g] == gs[g];
    }
  }

  lemma StepUsesUpStragglers(a: Agent, e: Event, c: CommandId)
    requires Enabled(a, e) && a.durable <= a.mem && c in a.mem && (IsCrash(e) ==> c in a.durable)
    ensures var b := Apply(a, e);
      c in b.mem && b.launched[c] + Stragglers(b.gs, c) <= a.launched[c] + Stragglers(a.gs, c)
  {
    match e {
      case Deliver(r) => StragglersAfterDeliver(a.gs, c, Goroutine(r, Delivered));
      case Check(g) => StragglersAfterMove(a.gs, c, g, Apply(a, e).gs[g]);
      case Decide(g, now) => StragglersAfterMove(a.gs, c, g, Apply(a, e).gs[g]);
      case End(g, o) => StragglersAfterMove(a.gs, c, g, Apply(a, e).gs[g]);
      case Record(g, w) => StragglersAfterMove(a.gs, c, g, Apply(a, e).gs[g]);
      case Send(g) => StragglersAfterMove(a.gs, c, g, Apply(a, e).gs[g]);
      case Crash =>
    }
  }

  /**
   Once a command is in the journal no goroutine passes the check for it again: from then on,
   within the process or, if the journal on disk has it, for ever, it is run at most by the
   goroutines that had already passed the check.
   */
  lemma {:induction false} OnlyStragglersRun(a: Agent, es: seq<Event>, c: CommandId)
    requires Legal(a, es) && a.durable <= a.mem && c in a.mem
    requires c in a.durable || forall k :: 0 <= k < |es| ==> !IsCrash(es[k])
    ensures c in After(a, es).mem
    ensures After(a, es).launched[c] + Stragglers(After(a, es).gs, c) <= a.launched[c] + Stragglers(a.gs, c)
  {
    if es != [] {
      var before := es[..|es| - 1];
      assert forall k :: 0 <= k < |before| ==> before[k] == es[k];
      OnlyStragglersRun(a, before, c);
      JournalsGrow(a, before);
      assert c in a.durable || !IsCrash(es[|es| - 1]);
      StepUsesUpStragglers(After(a, before), es[|es| - 1], c);
    }
  }

  ghost predicate CanStillRun(a: Agent, c: CommandId) {
    exists es :: Legal(a, es) && After(a, es).launched[c] > a.launched[c]
  }

  /**
   Exactly when a durably journalled command can still be run: a goroutine passed the check
   before the command was recorded and has yet to start it.
   */
  lemma RunsAfterDurableIff(a: Agent, c: CommandId)
    requires a.durable <= a.mem && c in a.durable
    ensures CanStillRun(a, c) <==> exists g :: 0 <= g < |a.gs| && IsStraggler(a.gs[g], c)
  {
    NoStragglers(a.gs, c);
    if g :| 0 <= g < |a.gs| && IsStraggler(a.gs[g], c) {
      var r := a.gs[g].request;
      var e := Decide(g, if r.expiresAt.Some? then r.expiresAt.value else 0);
      OneMore(a, [], e);
      assert Legal(a, [] + [e]) && After(a, [] + [e]).launched[c] > a.launched[c];
    } else {
      forall es | Legal(a, es)
        ensures After(a, es).launched[c] <= a.launched[c]
      {
        OnlyStragglersRun(a, es, c);
      }
    }
  }

  /** Two deliveries of `r` have both passed the journal check. */
  function Overlapping(r: Request): Agent {
    Init.(gs := [Goroutine(r, Checked), Goroutine(r, Checked)])
  }

  lemma OverlapIsReachable(r: Request)
    ensures var es := [Deliver(r), Deliver(r), Check(0), Check(1)];
      Legal(Init, es) && After(Init, es) == Overlapping(r)
  {
    var es := [Deliver(r), Deliver(r), Check(0), Check(1)];
    OneMore(Init, [], es[0]);
    OneMore(Init, [] + [es[0]], es[1]);
    OneMore(Init, [] + [es[0]] + [es[1]], es[2]);
    OneMore(Init, [] + [es[0]] + [es[1]] + [es[2]], es[3]);
    assert [] + [es[0]] + [es[1]] + [es[2]] + [es[3]] == es;
  }

  /** The first of the two has run the command and has it on disk. */
  function OneRecorded(r: Request): Agent {
    var result := ResultOf(r.kind, NotStarted);
    Agent({r.command}, {r.command}, [Goroutine(r, Recorded(StatusFor(result), result.exitCode)), Goroutine(r, Checked)],
          multiset{r.command}, {Run(r, NotStarted)}, {}, [])
  }

  lemma OverlapSteps(r: Request)
    requires Runnable(r) && r.expiresAt.None?
    ensures var a := Overlapping(r);
      && Enabled(a, Decide(0, 0)) && Enabled(Apply(a, Decide(0, 0)), End(0, NotStarted))
      && var b := Apply(Apply(a, Decide(0, 0)), End(0, NotStarted));
      && Enabled(b, Record(0, true)) && Apply(b, Record(0, true)) == OneRecorded(r)
  {
  }

  /**
   And such runs happen without any crash: the first of two overlapping deliveries runs the
   command and has it on disk while the second is still to run it.
   */
  lemma OverlapRunsTwice(r: Request)
    requires Runnable(r) && r.expiresAt.None?
    ensures var es := [Decide(0, 0), End(0, NotStarted), Record(0, true)];
      && Legal(Overlapping(r), es)
      && r.command in After(Overlapping(r), es).durable
      && CanStillRun(After(Overlapping(r), es), r.command)
  {
    var es := [Decide(0, 0), End(0, NotStarted), Record(0, true)];
    var a := Overlapping(r);
    OverlapSteps(r);
    ThreeMore(a, [], es[0], es[1], es[2]);
    assert [] + [es[0]] + [es[1]] + [es[2]] == es;
    SecondStillRuns(r);
  }

  lemma SecondStillRuns(r: Request)
    requires Runnable(r)
    ensures CanStillRun(OneRecorded(r), r.command)
  {
    assert IsStraggler(OneRecorded(r).gs[1], r.command);
    RunsAfterDurableIff(OneRecorded(r), r.command);
  }

  // ---------------------------------------------------------------------
  // Deliveries that do not overlap

  predicate Live(a: Agent, g: int, c: CommandId) {
    0 <= g < |a.gs| && !a.gs[g].phase.Done? && a.gs[g].request.command == c
  }

  ghost predicate NoneLive(a: Agent, c: CommandId) {
    forall g :: !Live(a, g, c)
  }

  /** A command is delivered again only when no earlier delivery of it is still being handled. */
  ghost predicate Alone(a: Agent, es: seq<Event>) {
    es == [] || (Alone(a, es[..|es| - 1])
                 && (es[|es| - 1].Deliver? ==> NoneLive(After(a, es[..|es| - 1]), es[|es| - 1].request.command)))
  }

  /** The crashes that hit while the command was not on disk. */
  function Forgotten(crashes: seq<set<CommandId>>, c: CommandId): nat {
    if crashes == [] then 0
    else Forgotten(crashes[..|crashes| - 1], c) + if c in crashes[|crashes| - 1] then 0 else 1
  }

  predicate BeforeRecord(p: Phase) {
    p.Checked? || p.Late? || p.Running? || p.Finished?
  }

  predicate HasRun(g: Goroutine, c: CommandId) {
    g.request.command == c && (g.phase.Running? || g.phase.Finished?)
  }

  /** The command has been run since the last crash that forgot it. */
  ghost predicate Spent(a: Agent, c: CommandId) {
    c in a.mem || exists g :: 0 <= g < |a.gs| && HasRun(a.gs[g], c)
  }

  ghost predicate AloneInv(a: Agent) {
    && a.durable <= a.mem
    && (forall g, h, c :: g < h && Live(a, g, c) ==> !Live(a, h, c))
    && (forall g :: 0 <= g < |a.gs| && BeforeRecord(a.gs[g].phase) ==> a.gs[g].request.command !in a.mem)
  }

  ghost predicate Budget(a: Agent, c: CommandId) {
    a.launched[c] <= Forgotten(a.crashes, c) + if Spent(a, c) then 1 else 0
  }

  lemma WasLive(a: Agent, e: Event, g: int, c: CommandId)
    requires Enabled(a, e) && Live(Apply(a, e), g, c)
    ensures Live(a, g, c) || (e.Deliver? && g == |a.gs| && e.request.command == c)
  {
  }

  lemma StepKeepsOneLive(a: Agent, e: Event, g: int, h: int, c: CommandId)
    requires AloneInv(a) && Enabled(a, e) && (e.Deliver? ==> NoneLive(a, e.request.command))
    requires g < h && Live(Apply(a, e), g, c)
    ensures !Live(Apply(a, e), h, c)
  {
    WasLive(a, e, g, c);
    if Live(Apply(a, e), h, c) {
      WasLive(a, e, h, c);
      assert false;
    }
  }

  lemma StepKeepsUnrecorded(a: Agent, e: Event, g: nat)
    requires AloneInv(a) && Enabled(a, e)
    requires g < |Apply(a, e).gs| && BeforeRecord(Apply(a, e).gs[g].phase)
    ensures Apply(a, e).gs[g].request.command !in Apply(a, e).mem
  {
    if e.Record? {
      assert Live(a, g, a.gs[g].request.command) && Live(a, e.g, a.gs[e.g].request.command);
    }
  }

  lemma StepKeepsAlone(a: Agent, e: Event)
    requires AloneInv(a) && Enabled(a, e) && (e.Deliver? ==> NoneLive(a, e.request.command))
    ensures AloneInv(Apply(a, e))
  {
    var b := Apply(a, e);
    forall g, h, c | g < h && Live(b, g, c)
      ensures !Live(b, h, c)
    {
      StepKeepsOneLive(a, e, g, h, c);
    }
    forall g | 0 <= g < |b.gs| && BeforeRecord(b.gs[g].phase)
      ensures b.gs[g].request.command !in b.mem
    {
      StepKeepsUnrecorded(a, e, g);
    }
  }

  lemma SpentStays(a: Agent, e: Event, c: CommandId)
    requires Enabled(a, e) && !e.Crash? && Spent(a, c)
    ensures Spent(Apply(a, e), c)
  {
    if c !in a.mem {
      var g :| 0 <= g < |a.gs| && HasRun(a.gs[g], c);
      assert c in Apply(a, e).mem || HasRun(Apply(a, e).gs[g], c);
    }
  }

  lemma LaunchSpends(a: Agent, e: Event, c: CommandId)
    requires AloneInv(a) && Enabled(a, e) && Apply(a, e).launched[c] != a.launched[c]
    ensures !Spent(a, c) && Spent(Apply(a, e), c) && Apply(a, e).launched[c] == a.launched[c] + 1
    ensures Apply(a, e).crashes == a.crashes
  {
    assert e.Decide? && a.gs[e.g].request.command == c;
    assert HasRun(Apply(a, e).gs[e.g], c);
    forall g | 0 <= g < |a.gs|
      ensures !HasRun(a.gs[g], c)
    {
      assert Live(a, e.g, c);
      assert HasRun(a.gs[g], c) ==> Live(a, g, c);
    }
  }

  lemma CrashKeepsBudget(a: Agent, c: CommandId)
    requires a.durable <= a.mem && Budget(a, c)
    ensures Budget(Apply(a, Crash), c)
  {
    assert (a.crashes + [a.durable])[..|a.crashes|] == a.crashes;
  }

  lemma StepKeepsBudget(a: Agent, e: Event, c: CommandId)
    requires AloneInv(a) && Budget(a, c) && Enabled(a, e)
    ensures Budget(Apply(a, e), c)
  {
    if e.Crash? {
      CrashKeepsBudget(a, c);
    } else if Apply(a, e).launched[c] != a.launched[c] {
      LaunchSpends(a, e, c);
    } else {
      KeepsSpent(a, e, c);
    }
  }

  lemma KeepsSpent(a: Agent, e: Event, c: CommandId)
    requires Budget(a, c) && Enabled(a, e) && !e.Crash? && Apply(a, e).launched[c] == a.launched[c]
    ensures Budget(Apply(a, e), c)
  {
    if Spent(a, c) {
      SpentStays(a, e, c);
    }
    assert Apply(a, e).crashes == a.crashes;
  }

  lemma {:induction false} AloneRun(es: seq<Event>, c: CommandId)
    requires Legal(Init, es) && Alone(Init, es)
    ensures AloneInv(After(Init, es)) && Budget(After(Init, es), c)
  {
    if es != [] {
      AloneRun(es[..|es| - 1], c);
      StepKeepsAlone(After(Init, es[..|es| - 1]), es[|es| - 1]);
      StepKeepsBudget(After(Init, es[..|es| - 1]), es[|es| - 1], c);
    }
  }

  /**
   Without overlapping deliveries a command is run at most once, plus once for each crash that
   hit before its id was on disk; with its id on disk it is never run again.
   */
  lemma RunsAreBounded(es: seq<Event>, c: CommandId)
    requires Legal(Init, es) && Alone(Init, es)
    ensures var crashes := After(Init, es).crashes;
      After(Init, es).launched[c] <= 1 + |set k | 0 <= k < |crashes| && c !in crashes[k]|
    ensures c in After(Init, es).durable ==> !CanStillRun(After(Init, es), c)
  {
    AloneRun(es, c);
    var a := After(Init, es);
    ForgottenCounts(a.crashes, c);
    if c in a.durable {
      RunsAfterDurableIff(a, c);
    }
  }

  lemma {:induction false} ForgottenCounts(crashes: seq<set<CommandId>>, c: CommandId)
    ensures Forgotten(crashes, c) == |set k | 0 <= k < |crashes| && c !in crashes[k]|
  {
    if crashes != [] {
      var n := |crashes| - 1;
      ForgottenCounts(crashes[..n], c);
      var before := set k | 0 <= k < n && c !in crashes[..n][k];
      assert (set k | 0 <= k < |crashes| && c !in crashes[k]) == before + if c in crashes[n] then {} else {n};
    }
  }

  /** Crashes that forgot the command, `n` of them. */
  function Blank(n: nat): seq<set<CommandId>> {
    if n == 0 then [] else Blank(n - 1) + [{}]
  }

  /** Started again after `n` crashes, each after a run whose record did not reach the disk. */
  predicate Restarted(a: Agent, c: CommandId, n: nat) {
    a.mem == {} && a.durable == {} && a.gs == [] && a.launched[c] == n && a.crashes == Blank(n)
  }

  lemma RunsAndForgets(a: Agent, r: Request, now: int, o: Outcome, n: nat)
    requires Restarted(a, r.command, n) && MayRun(r, now) && (!Startable(r) ==> o.NotStarted?)
    ensures var start := [Deliver(r), Check(0), Decide(0, now)];
      && Legal(a, start) && Alone(a, start) && After(a, start).launched[r.command] == n + 1 && After(a, start).crashes == Blank(n)
      && Legal(a, start + [End(0, o)] + [Record(0, false)] + [Crash])
      && Alone(a, start + [End(0, o)] + [Record(0, false)] + [Crash])
      && Restarted(After(a, start + [End(0, o)] + [Record(0, false)] + [Crash]), r.command, n + 1)
  {
    var start := [Deliver(r), Check(0), Decide(0, now)];
    StartsAlone(a, r, now);
    var b := After(a, start);
    assert b.gs == [Goroutine(r, Running)] && b.mem == {} && b.durable == {};
    ThreeMore(a, start, End(0, o), Record(0, false), Crash);
    AloneMore(a, start, End(0, o));
    AloneMore(a, start + [End(0, o)], Record(0, false));
    AloneMore(a, start + [End(0, o)] + [Record(0, false)], Crash);
  }

  lemma StartsAlone(a: Agent, r: Request, now: int)
    requires a.gs == [] && r.command !in a.mem && MayRun(r, now)
    ensures var start := [Deliver(r), Check(0), Decide(0, now)];
      && Legal(a, start) && Alone(a, start)
      && After(a, start) == a.(gs := [Goroutine(r, Running)], launched := a.launched + multiset{r.command})
  {
    var start := [Deliver(r), Check(0), Decide(0, now)];
    ThreeMore(a, [], Deliver(r), Check(0), Decide(0, now));
    AloneMore(a, [], Deliver(r));
    AloneMore(a, [] + [Deliver(r)], Check(0));
    AloneMore(a, [] + [Deliver(r)] + [Check(0)], Decide(0, now));
    assert [] + [Deliver(r)] + [Check(0)] + [Decide(0, now)] == start;
  }

  lemma AloneMore(a: Agent, es: seq<Event>, e: Event)
    ensures Alone(a, es + [e]) <==> Alone(a, es) && (e.Deliver? ==> NoneLive(After(a, es), e.request.command))
  {
    assert (es + [e])[..|es|] == es;
  }

  /** The bound is reached for every number of crashes, by every command that can be run. */
  lemma {:induction false} EveryForgettingCrashCanCostARun(r: Request, now: int, o: Outcome, n: nat) returns (es: seq<Event>)
    requires MayRun(r, now) && (!Startable(r) ==> o.NotStarted?)
    ensures Legal(Init, es) && Alone(Init, es)
    ensures var a := After(Init, es);
      && a.launched[r.command] == n + 1
      && |set k | 0 <= k < |a.crashes| && r.command !in a.crashes[k]| == n
  {
    var lives := ForgettingLives(r, now, o, n);
    es := lives + [Deliver(r), Check(0), Decide(0, now)];
    RunsAndForgets(After(Init, lives), r, now, o, n);
    InTurn(Init, lives, [Deliver(r), Check(0), Decide(0, now)]);
    ForgottenCounts(Blank(n), r.command);
    BlankForgets(n, r.command);
  }

  lemma {:induction false} BlankForgets(n: nat, c: CommandId)
    ensures Forgotten(Blank(n), c) == n
  {
    if n > 0 {
      BlankForgets(n - 1, c);
      assert Blank(n)[..|Blank(n)| - 1] == Blank(n - 1);
    }
  }

  lemma {:induction false} ForgettingLives(r: Request, now: int, o: Outcome, n: nat) returns (es: seq<Event>)
    requires MayRun(r, now) && (!Startable(r) ==> o.NotStarted?)
    ensures Legal(Init, es) && Alone(Init, es) && Restarted(After(Init, es), r.command, n)
  {
    es := [];
    if n > 0 {
      var before := ForgettingLives(r, now, o, n - 1);
      RunsAndForgets(After(Init, before), r, now, o, n - 1);
      var life := [Deliver(r), Check(0), Decide(0, now)] + [End(0, o)] + [Record(0, false)] + [Crash];
      InTurn(Init, before, life);
      es := before + life;
    }
  }

  /** A run and then a run from where it ended are one run. */
  lemma {:induction false} InTurn(a: Agent, es: seq<Event>, fs: seq<Event>)
    ensures After(a, es + fs) == After(After(a, es), fs)
    ensures Legal(a, es) && Legal(After(a, es), fs) ==> Legal(a, es + fs)
    ensures Alone(a, es) && Alone(After(a, es), fs) ==> Alone(a, es + fs)
  {
    if fs == [] {
      assert es + fs == es;
    } else {
      InTurn(a, es, fs[..|fs| - 1]);
      assert (es + fs)[..|es + fs| - 1] == es + fs[..|fs| - 1];
    }
  }

  // ---------------------------------------------------------------------
  // Lost replies

  /** No goroutine of the command is past the journal check and still to reply. */
  predicate NoneToReply(a: Agent, c: CommandId) {
    forall g :: 0 <= g < |a.gs| && a.gs[g].request.command == c ==> a.gs[g].phase.Delivered? || a.gs[g].phase.Done?
  }

  predicate IsReplyTo(r: Reply, c: CommandId) {
    r.command == c
  }

  lemma StepStaysSilent(a: Agent, e: Event, c: CommandId)
    requires Enabled(a, e) && a.durable <= a.mem && c in a.durable && NoneToReply(a, c)
    ensures NoneToReply(Apply(a, e), c)
    ensures forall r :: IsReplyTo(r, c) ==> (r in Apply(a, e).replies <==> r in a.replies)
  {
  }

  /**
   A journalled command whose goroutines are gone is never answered again, whatever is
   redelivered: a reply lost to a crash after the recording, or to a broken connection, is lost
   for good, and only the server's sweep can close that job.
   */
  lemma {:induction false} LostReplyIsNeverResent(a: Agent, es: seq<Event>, c: CommandId)
    requires Legal(a, es) && a.durable <= a.mem && c in a.durable && NoneToReply(a, c)
    ensures NoneToReply(After(a, es), c)
    ensures forall r :: IsReplyTo(r, c) ==> (r in After(a, es).replies <==> r in a.replies)
  {
    if es != [] {
      var before := es[..|es| - 1];
      LostReplyIsNeverResent(a, before, c);
      JournalsGrow(a, before);
      StepStaysSilent(After(a, before), es[|es| - 1], c);
    }
  }

  /** In particular a crash between the recording and the reply leaves the command unanswered. */
  lemma CrashAfterRecordingSilences(a: Agent, es: seq<Event>, c: CommandId)
    requires a.durable <= a.mem && c in a.durable && Legal(Apply(a, Crash), es)
    ensures forall r :: IsReplyTo(r, c) ==> (r in After(Apply(a, Crash), es).replies <==> r in a.replies)
  {
    LostReplyIsNeverResent(Apply(a, Crash), es, c);
  }

  /** The command was delivered, run and recorded, and the process died before it replied. */
  function DiedBeforeReply(r: Request, o: Outcome): Agent {
    Agent({r.command}, {r.command}, [], multiset{r.command}, {Run(r, o)}, {}, [{r.command}])
  }

  function RunningAlone(r: Request): Agent {
    Init.(gs := [Goroutine(r, Running)], launched := multiset{r.command})
  }

  lemma RunsThenDies(r: Request, o: Outcome)
    requires Runnable(r) && (!Startable(r) ==> o.NotStarted?)
    ensures var a := RunningAlone(r);
      && Enabled(a, End(0, o)) && Enabled(Apply(a, End(0, o)), Record(0, true))
      && Apply(Apply(Apply(a, End(0, o)), Record(0, true)), Crash) == DiedBeforeReply(r, o)
  {
    var b := Apply(RunningAlone(r), End(0, o));
    assert b.gs == [Goroutine(r, Finished(ResultOf(r.kind, o)))] && b.ended == {Run(r, o)};
    assert Apply(b, Record(0, true)).mem == {r.command};
  }

  lemma StartsToRun(r: Request, now: int)
    requires Runnable(r) && !Expired(r, now) && !r.kind.InventoryRefresh?
    ensures var es := [Deliver(r), Check(0), Decide(0, now)];
      Legal(Init, es) && After(Init, es) == RunningAlone(r)
  {
    var es := [Deliver(r), Check(0), Decide(0, now)];
    ThreeMore(Init, [], es[0], es[1], es[2]);
    assert [] + [es[0]] + [es[1]] + [es[2]] == es;
  }

  /** Such runs exist, for every command that can be run and every way its run may end. */
  lemma CrashBeforeReply(r: Request, now: int, o: Outcome)
    requires Runnable(r) && !Expired(r, now) && !r.kind.InventoryRefresh? && (!Startable(r) ==> o.NotStarted?)
    ensures var es := [Deliver(r), Check(0), Decide(0, now)] + [End(0, o)] + [Record(0, true)] + [Crash];
      Legal(Init, es) && After(Init, es) == DiedBeforeReply(r, o)
  {
    var es := [Deliver(r), Check(0), Decide(0, now)];
    StartsToRun(r, now);
    RunsThenDies(r, o);
    ThreeMore(Init, es, End(0, o), Record(0, true), Crash);
  }

  // ---------------------------------------------------------------------
  // One goroutine on its own

  /** What an undisturbed executeCommand replies, if anything. */
  function SoloReply(mem: set<CommandId>, r: Request, now: int, o: Outcome): Option<Reply> {
    if r.command in mem then None
    else if Expired(r, now) then Some(Reply(r.command, StatusExpired, 0))
    else if r.kind.InventoryRefresh? then Some(Reply(r.command, StatusSucceeded, 0))
    else
      var result := if Runnable(r) then ResultOf(r.kind, o) else ExecResult(0, None);
      Some(Reply(r.command, StatusFor(result), result.exitCode))
  }

  /** Whether it writes the command to the journal. */
  predicate SoloRecords(mem: set<CommandId>, r: Request, now: int) {
    r.command !in mem && (Expired(r, now) || !r.kind.InventoryRefresh?)
  }

  /** Whether it runs the command. */
  predicate SoloRan(mem: set<CommandId>, r: Request, now: int) {
    r.command !in mem && !Expired(r, now) && Runnable(r)
  }

  /** The same with the comparison of clocks written out. */
  lemma SoloReplySpelledOut(mem: set<CommandId>, r: Request, now: int, o: Outcome)
    ensures SoloReply(mem, r, now, o).None? <==> r.command in mem
    ensures SoloRan(mem, r, now) <==> r.command !in mem && MayRun(r, now)
    ensures SoloRecords(mem, r, now) <==>
              r.command !in mem && (r.kind != InventoryRefresh || (r.expiresAt.Some? && now > r.expiresAt.value))
    ensures r.command !in mem ==>
      var reply := SoloReply(mem, r, now, o).value;
      && reply.command == r.command
      && (reply.status == StatusExpired <==> r.expiresAt.Some? && now > r.expiresAt.value)
      && (reply.status == StatusExpired ==> reply.exitCode == 0)
      && (MayRun(r, now) ==> reply.status == StatusFor(ResultOf(r.kind, o)) && reply.exitCode == ResultOf(r.kind, o).exitCode)
      && (reply.status != StatusExpired && !MayRun(r, now) ==> reply.status == StatusSucceeded && reply.exitCode == 0)
  {
    ReportedStatus(r.kind, o);
  }

  /** The steps the goroutine started next takes when nothing interleaves. */
  function SoloEvents(a: Agent, r: Request, now: int, o: Outcome, written: bool): seq<Event> {
    var g := |a.gs|;
    [Deliver(r), Check(g)]
    + (if r.command in a.mem then [] else [Decide(g, now)])
    + (if SoloRan(a.mem, r, now) then [End(g, o)] else [])
    + (if SoloRecords(a.mem, r, now) then [Record(g, written), Send(g)] else [])
  }

  /** The goroutine's steps, taken in a row, do what the straight-line code does. */
  lemma SoloSteps(a: Agent, r: Request, now: int, o: Outcome, written: bool)
    requires Runnable(r) && !Startable(r) ==> o.NotStarted?
    ensures Legal(a, SoloEvents(a, r, now, o, written))
    ensures var b := After(a, SoloEvents(a, r, now, o, written));
      var reply := SoloReply(a.mem, r, now, o);
      && b.gs == a.gs + [Goroutine(r, Done)]
      && b.replies == (if reply.Some? then a.replies + {reply.value} else a.replies)
      && b.ended == (if SoloRan(a.mem, r, now) then a.ended + {Run(r, o)} else a.ended)
      && b.mem == (if SoloRecords(a.mem, r, now) then a.mem + {r.command} else a.mem)
      && b.durable == if SoloRecords(a.mem, r, now) && written then b.mem else a.durable
  {
    var g := |a.gs|;
    OneMore(a, [], Deliver(r));
    var started := [] + [Deliver(r)];
    OneMore(a, started, Check(g));
    assert started + [Check(g)] == [Deliver(r), Check(g)];
    if r.command in a.mem {
      assert SoloEvents(a, r, now, o, written) == started + [Check(g)];
    } else {
      SoloDecides(a, [Deliver(r), Check(g)], r, now, o, written);
    }
  }

  /**
   And what that is: past the expiry only the reply "expired", in time one run of every request
   that can be run, with the reply its outcome calls for, and nothing for a known command.
   */
  lemma SoloRun(a: Agent, r: Request, now: int, o: Outcome, written: bool)
    requires Runnable(r) && !Startable(r) ==> o.NotStarted?
    ensures Legal(a, SoloEvents(a, r, now, o, written))
    ensures var b := After(a, SoloEvents(a, r, now, o, written));
      && b.gs == a.gs + [Goroutine(r, Done)]
      && (r.command in a.mem ==> b.replies == a.replies && b.ended == a.ended && b.mem == a.mem && b.durable == a.durable)
      && (r.command !in a.mem && r.expiresAt.Some? && now > r.expiresAt.value ==>
            && b.replies == a.replies + {Reply(r.command, StatusExpired, 0)} && b.ended == a.ended
            && b.mem == a.mem + {r.command} && b.durable == if written then b.mem else a.durable)
      && (r.command !in a.mem && MayRun(r, now) ==>
            && b.replies == a.replies + {Reply(r.command, StatusFor(ResultOf(r.kind, o)), ResultOf(r.kind, o).exitCode)}
            && b.ended == a.ended + {Run(r, o)}
            && b.mem == a.mem + {r.command} && b.durable == if written then b.mem else a.durable)
      && (r.command !in a.mem && r.kind == InventoryRefresh && (r.expiresAt.None? || now <= r.expiresAt.value) ==>
            && b.replies == a.replies + {Reply(r.command, StatusSucceeded, 0)}
            && b.ended == a.ended && b.mem == a.mem && b.durable == a.durable)
  {
    SoloSteps(a, r, now, o, written);
    SoloReplySpelledOut(a.mem, r, now, o);
  }

  lemma SoloDecides(a: Agent, es: seq<Event>, r: Request, now: int, o: Outcome, written: bool)
    requires es == [Deliver(r), Check(|a.gs|)] && Legal(a, es) && r.command !in a.mem
    requires After(a, es) == a.(gs := a.gs + [Goroutine(r, Checked)])
    requires Runnable(r) && !Startable(r) ==> o.NotStarted?
    ensures Legal(a, SoloEvents(a, r, now, o, written))
    ensures var b := After(a, SoloEvents(a, r, now, o, written));
      && b.gs == a.gs + [Goroutine(r, Done)]
      && b.replies == a.replies + {SoloReply(a.mem, r, now, o).value}
      && b.ended == (if SoloRan(a.mem, r, now) then a.ended + {Run(r, o)} else a.ended)
      && b.mem == (if SoloRecords(a.mem, r, now) then a.mem + {r.command} else a.mem)
      && b.durable == if SoloRecords(a.mem, r, now) && written then b.mem else a.durable
  {
    var g := |a.gs|;
    var all := SoloEvents(a, r, now, o, written);
    OneMore(a, es, Decide(g, now));
    var decided := es + [Decide(g, now)];
    if !Expired(r, now) && Runnable(r) {
      SoloRuns(a, decided, r, o, written);
      assert all == decided + [End(g, o)] + [Record(g, written)] + [Send(g)];
    } else if SoloRecords(a.mem, r, now) {
      SoloRecordsAndSends(a, decided, g, written);
      assert all == decided + [Record(g, written)] + [Send(g)];
    } else {
      assert all == decided;
    }
  }

  lemma SoloRuns(a: Agent, es: seq<Event>, r: Request, o: Outcome, written: bool)
    requires Legal(a, es) && Runnable(r) && (!Startable(r) ==> o.NotStarted?)
    requires After(a, es) == a.(gs := a.gs + [Goroutine(r, Running)], launched := a.launched + multiset{r.command})
    ensures var g := |a.gs|;
      var all := es + [End(g, o)] + [Record(g, written)] + [Send(g)];
      var result := ResultOf(r.kind, o);
      && Legal(a, all)
      && After(a, all).gs == a.gs + [Goroutine(r, Done)]
      && After(a, all).replies == a.replies + {Reply(r.command, StatusFor(result), result.exitCode)}
      && After(a, all).ended == a.ended + {Run(r, o)}
      && After(a, all).mem == a.mem + {r.command}
      && After(a, all).durable == if written then a.mem + {r.command} else a.durable
  {
    var g := |a.gs|;
    OneMore(a, es, End(g, o));
    SoloRecordsAndSends(a, es + [End(g, o)], g, written);
  }

  lemma SoloRecordsAndSends(a: Agent, es: seq<Event>, g: nat, written: bool)
    requires Legal(a, es) && Enabled(After(a, es), Record(g, written))
    ensures var b := After(a, es);
      var all := es + [Record(g, written)] + [Send(g)];
      var p := ReplyPhase(b.gs[g].phase);
      && Legal(a, all)
      && After(a, all).gs == b.gs[g := Goroutine(b.gs[g].request, Done)]
      && After(a, all).replies == b.replies + {Reply(b.gs[g].request.command, p.status, p.exitCode)}
      && After(a, all).ended == b.ended
      && After(a, all).mem == b.mem + {b.gs[g].request.command}
      && After(a, all).durable == if written then After(a, all).mem else b.durable
  {
    OneMore(a, es, Record(g, written));
    OneMore(a, es + [Record(g, written)], Send(g));
  }

  // ---------------------------------------------------------------------
  // The journal itself

  /** journal.json: absent, a list of ids, or something that does not parse. */
  datatype File = Absent | Ids(ids: seq<CommandId>) | Unreadable

  class StateDir {
    var journal: File

    ghost function OnDisk(): set<CommandId>
      reads this
    {
      if journal.Ids? then set c | c in journal.ids else {}
    }

    constructor ()
      ensures journal == Absent
    {
      journal := Absent;
    }
  }

  class Journal {
    const dir: StateDir
    var done: set<CommandId>

    /** The journal on disk never holds more than the one in memory. */
    ghost predicate Valid()
      reads this, dir
    {
      dir.OnDisk() <= done
    }

    constructor (dir: StateDir, done: set<CommandId>)
      requires dir.OnDisk() <= done
      ensures this.dir == dir && this.done == done && Valid()
    {
      this.dir := dir;
      this.done := done;
    }

    /** Opens the journal: exactly the ids on disk, or an error if the file cannot be read. */
    static method NewJournal(dir: StateDir) returns (r: Option<Journal>)
      ensures r.None? <==> dir.journal.Unreadable?
      ensures r.Some? ==> fresh(r.value) && r.value.dir == dir && r.value.done == dir.OnDisk() && r.value.Valid()
    {
      if dir.journal.Unreadable? {
        return None;
      }
      var done: set<CommandId> := {};
      if dir.journal.Ids? {
        var ids := dir.journal.ids;
        var i := 0;
        while i < |ids|
          invariant 0 <= i <= |ids|
          invariant done == set c | c in ids[..i]
        {
          assert ids[..i + 1] == ids[..i] + [ids[i]];
          done := done + {ids[i]};
          i := i + 1;
        }
        assert ids[..i] == ids;
      }
      var j := new Journal(dir, done);
      r := Some(j);
    }

    method Contains(c: CommandId) returns (found: bool)
      ensures found <==> c in done
    {
      found := c in done;
    }

    /** Marks a command and rewrites the file; `written` is whether the write and rename succeed. */
    method Record(c: CommandId, written: bool) returns (ok: bool)
      requires Valid()
      modifies this, dir
      ensures Valid() && ok == written
      ensures done == old(done) + {c}
      ensures dir.OnDisk() == if written then done else old(dir.OnDisk())
    {
      done := done + {c};
      var ids: seq<CommandId> := [];
      var rest := done;
      while rest != {}
        invariant rest <= done && done == rest + set x | x in ids
        decreases rest
      {
        var x :| x in rest;
        ids := ids + [x];
        rest := rest - {x};
      }
      if written {
        dir.journal := Ids(ids);
      }
      ok := written;
    }
  }

  /**
   executeCommand without interleaving, over the journal object: the reply and the journal it
   leaves are those of the steps above (`SoloSteps`).  `now` is the clock reading, `outcome` how
   the run ends and `written` whether the journal file could be replaced; `ran` tells whether the
   runner was called.
   */
  method ExecuteCommand(journal: Journal, r: Request, now: int, outcome: Outcome, written: bool)
    returns (reply: Option<Reply>, ran: bool)
    requires journal.Valid()
    modifies journal, journal.dir
    ensures journal.Valid()
    ensures reply == SoloReply(old(journal.done), r, now, outcome) && ran == SoloRan(old(journal.done), r, now)
    ensures ran <==> r.command !in old(journal.done) && MayRun(r, now)
    ensures r.command in old(journal.done) <==> reply.None?
    ensures r.command !in old(journal.done) && r.expiresAt.Some? && now > r.expiresAt.value ==>
              reply == Some(Reply(r.command, StatusExpired, 0))
    ensures r.expiresAt.None? || now <= r.expiresAt.value ==> reply.None? || !reply.value.status.StatusExpired?
    ensures ran ==> reply == Some(Reply(r.command, StatusFor(ResultOf(r.kind, outcome)), ResultOf(r.kind, outcome).exitCode))
    ensures journal.done ==
      if reply.Some? && (reply.value.status.StatusExpired? || !r.kind.InventoryRefresh?) then old(journal.done) + {r.command}
      else old(journal.done)
    ensures journal.dir.OnDisk() ==
      if reply.Some? && (reply.value.status.StatusExpired? || !r.kind.InventoryRefresh?) && written then journal.done
      else old(journal.dir.OnDisk())
  {
    ran := false;
    var known := journal.Contains(r.command);
    if known {
      return None, ran;
    }
    if r.expiresAt.Some? && now > r.expiresAt.value {
      var _ := journal.Record(r.command, written);
      return Some(Reply(r.command, StatusExpired, 0)), ran;
    }
    var result: ExecResult;
    if r.kind.InventoryRefresh? {
      return Some(Reply(r.command, StatusSucceeded, 0)), ran;
    } else if r.kind.Script? {
      var spec := ParseSpec(r.spec);
      ran := spec.Ok?;
      result := if spec.Err? then ExecResult(0, None) else ScriptResult(outcome);
    } else if r.kind.PackageInstall? || r.kind.PackageRemove? {
      var spec := ParsePackageSpec(r.spec);
      ran := spec.Ok?;
      result := if spec.Err? then ExecResult(0, None) else PackageResult(outcome);
    } else {
      result := ExecResult(0, None);
    }
    var status := StatusFailed;
    if result.err == Some(DeadlineExceeded) {
      status := StatusTimeout;
    } else if result.err.Some? {
      status := StatusFailed;
    } else if result.exitCode == 0 {
      status := StatusSucceeded;
    }
    var _ := journal.Record(r.command, written);
    reply := Some(Reply(r.command, status, result.exitCode));
  }
}
