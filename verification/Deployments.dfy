/**
 Rule-based app deployment (server/internal/worker/deployments.go:24-211 and
 server/internal/store/apps.go:228-325): each enabled rule is claimed at most hourly and creates
 install jobs for the devices in scope that need the app and have no install under way.

 A reconcile transaction is one atomic step.  Case folding, the OS comparison and compiled
 regular expressions are parameters.  Times are in seconds.
 */
module Deployments {
  import opened Wrappers
  import opened Commands
  import opened JsonNames
  import JobTable

  const HOUR := 3600
  const DAY := 24 * HOUR

  type Tables = JobTable.Tables

  datatype AppPackage = AppPackage(os: string, install: Json, detection: seq<string>, archived: bool, timeout: nat)

  datatype Device = Device(id: nat, site: nat, customer: nat, os: string, hostname: string, tags: seq<string>, active: bool)

  /** The schema admits no other scope. */
  datatype Scope = Tenant | OfCustomer(customer: nat) | OfSite(site: nat) | OfDevice(device: nat)

  datatype Filters = Filters(tags: seq<string>, all: bool, hostnameRegex: string)

  datatype Rule = Rule(package: nat, scope: Scope, filters: Filters, enabled: bool, lastRun: Option<int>)

  /** What a pass reads: the tables beside `jobs`, in hostname order where the query sorts. */
  datatype Env = Env(
    packages: map<nat, AppPackage>,
    devices: seq<Device>,
    inventory: map<nat, seq<string>>,  // no entry: nothing uploaded, or not readable
    lower: string -> string,
    sameOS: (string, string) -> bool,
    compile: string -> Option<string -> bool>)

  // ---------------------------------------------------------------------
  // Which devices need the app

  predicate InScope(d: Device, s: Scope) {
    d.active && match s
                case Tenant => true
                case OfCustomer(c) => d.customer == c
                case OfSite(i) => d.site == i
                case OfDevice(i) => d.id == i
  }

  predicate TagsFit(tags: seq<string>, want: seq<string>, all: bool) {
    if all then forall t :: t in want ==> t in tags else exists t :: t in want && t in tags
  }

  predicate Listed(lower: string -> string, present: seq<string>, name: string) {
    exists k :: 0 <= k < |present| && lower(present[k]) == lower(name)
  }

  /** The inventory holds every detection name; no inventory, or nothing to detect, is no. */
  predicate HasApp(env: Env, device: nat, names: seq<string>) {
    && names != [] && device in env.inventory
    && forall n :: n in names ==> Listed(env.lower, env.inventory[device], n)
  }

  /** What a claimed rule will offer: the packages, how to detect them and the hostname filter. */
  datatype Plan = Plan(app: AppPackage, packages: seq<string>, names: seq<string>, host: Option<string -> bool>)

  /** None when the package is gone or archived, its install spec unusable, or the regex bad. */
  function PlanFor(env: Env, rule: Rule): Option<Plan> {
    if rule.package !in env.packages || env.packages[rule.package].archived then None
    else
      var app := env.packages[rule.package];
      var packages := ParsePackageSpec(app.install);
      if packages.Err? || packages.value == [] then None
      else
        var names := if app.detection == [] then packages.value else app.detection;
        if rule.filters.hostnameRegex == "" then Some(Plan(app, packages.value, names, None))
        else
          var re := env.compile(rule.filters.hostnameRegex);
          if re.None? then None else Some(Plan(app, packages.value, names, re))
  }

  predicate Matches(env: Env, p: Plan, f: Filters, d: Device) {
    && env.sameOS(d.os, p.app.os)
    && (f.tags != [] ==> TagsFit(d.tags, f.tags, f.all))
    && (p.host.Some? ==> p.host.value(d.hostname))
  }

  predicate Needs(env: Env, rule: Rule, p: Plan, d: Device) {
    Matches(env, p, rule.filters, d) && !HasApp(env, d.id, p.names)
  }

  // ---------------------------------------------------------------------
  // Installs under way

  /** The jsonb operator `->`: the member with exactly this key. */
  function Member(fields: seq<Field>, key: string): Option<Json> {
    if fields == [] then None
    else if fields[|fields| - 1].key == key then Some(fields[|fields| - 1].value)
    else Member(fields[..|fields| - 1], key)
  }

  /** The package names the test `spec->'packages' ?| names` can see. */
  predicate Names(spec: Json, name: string) {
    && spec.Obj? && Member(spec.fields, "packages").Some? && Member(spec.fields, "packages").value.Arr?
    && Str(name) in Member(spec.fields, "packages").value.items
  }

  predicate IsInstall(j: JobTable.Job) {
    j.work.PackageWork? && j.work.install
  }

  predicate UnderWay(j: JobTable.Job, now: int) {
    || j.status.Pending? || j.status.Sent? || j.status.Running?
    || (j.status.Succeeded? && j.finishedAt.Some? && j.finishedAt.value > now - DAY)
  }

  predicate Blocks(j: JobTable.Job, device: nat, packages: seq<string>, now: int) {
    && j.device == device && IsInstall(j) && UnderWay(j, now)
    && exists n :: n in packages && Names(j.work.spec, n)
  }

  predicate InFlight(t: Tables, device: nat, packages: seq<string>, now: int) {
    exists k :: 0 <= k < |t.jobs| && Blocks(t.jobs[k], device, packages, now)
  }

  /** The job's packages, as the agent reads them. */
  predicate Installs(j: JobTable.Job, name: string) {
    IsInstall(j) && ParsePackageSpec(j.work.spec).Ok? && name in ParsePackageSpec(j.work.spec).value
  }

  /** The database sees every package the agent will read from the spec. */
  ghost predicate Visible(spec: Json) {
    ParsePackageSpec(spec).Ok? && forall n :: n in ParsePackageSpec(spec).value ==> Names(spec, n)
  }

  /** Every spec the API writes is visible, and shows nothing else. */
  lemma WrittenIsVisible(packages: seq<string>)
    ensures Visible(EncodePackages(packages))
    ensures forall n :: Names(EncodePackages(packages), n) <==> n in packages
  {
    PackageSpecRoundTrip(packages);
    var fs := EncodePackages(packages).fields;
    var items := fs[0].value.items;
    assert Member(fs, "packages") == Some(Arr(items));
    forall n
      ensures Str(n) in items <==> n in packages
    {
      if k :| 0 <= k < |packages| && packages[k] == n {
        assert items[k] == Str(n);
      }
    }
  }

  /** A spec with the key in another case would not be: the agent installs "a", the check sees nothing. */
  lemma OtherSpellingIsInvisible()
    ensures var spec := Obj([Field("PACKAGES", Arr([Str("a")]))]);
      ParsePackageSpec(spec) == Ok(["a"]) && !Visible(spec)
  {
    var spec := Obj([Field("PACKAGES", Arr([Str("a")]))]);
    var fs := spec.fields;
    assert fs[..|fs| - 1] == [];
    assert ReadList(fs[..|fs| - 1], "packages") == Ok([]);
    assert Fold("PACKAGES") == "PACKAGES" && Fold("packages") == "PACKAGES";
    var items := fs[0].value.items;
    assert TextList(items).Ok? && TextList(items).value == ["a"];
    assert fs[0].key[0] != "packages"[0];
    assert Member(fs[..|fs| - 1], "packages") == None;
    assert "a" in ["a"] && !Names(spec, "a");
  }

  /** It blocks every plan that shares a package with it. */
  ghost predicate BlocksShared(j: JobTable.Job, now: int) {
    forall packages, n :: n in packages && Installs(j, n) ==> Blocks(j, j.device, packages, now)
  }

  /**
   The check asks the database, which matches the key exactly, while worker and agent read it in
   any case: a job under way blocks all installs that share a package with it iff the
   database sees all its packages.
   */
  lemma BlocksSharedIff(j: JobTable.Job, now: int)
    requires IsInstall(j) && UnderWay(j, now) && ParsePackageSpec(j.work.spec).Ok?
    ensures BlocksShared(j, now) <==> Visible(j.work.spec)
  {
    if BlocksShared(j, now) {
      forall n | n in ParsePackageSpec(j.work.spec).value
        ensures Names(j.work.spec, n)
      {
        assert n in [n] && Installs(j, n);
        assert Blocks(j, j.device, [n], now);
      }
    }
  }

  /** The values a created job's row gets besides the device. */
  datatype Terms = Terms(now: int, expiresAt: int, command: nat -> CommandId)

  function InstallEvent(t: Tables, p: Plan, device: nat, terms: Terms): JobTable.Event {
    JobTable.Create(terms.command(|t.jobs|), device, PackageWork(true, p.app.install), p.app.timeout, terms.expiresAt)
  }

  /** One turn of the reconcile loop. */
  function Offer(t: Tables, env: Env, rule: Rule, p: Plan, d: Device, terms: Terms): Tables {
    if Needs(env, rule, p, d) && !InFlight(t, d.id, p.packages, terms.now) then
      JobTable.Apply(t, InstallEvent(t, p, d.id, terms))
    else t
  }

  function OfferAll(t: Tables, env: Env, rule: Rule, p: Plan, ds: seq<Device>, terms: Terms): Tables {
    if ds == [] then t
    else Offer(OfferAll(t, env, rule, p, ds[..|ds| - 1], terms), env, rule, p, ds[|ds| - 1], terms)
  }

  function Scoped(ds: seq<Device>, s: Scope): seq<Device> {
    if ds == [] then []
    else Scoped(ds[..|ds| - 1], s) + if InScope(ds[|ds| - 1], s) then [ds[|ds| - 1]] else []
  }

  /** What one rule's reconciliation does to the job table. */
  function Reconciled(t: Tables, env: Env, rule: Rule, terms: Terms): Tables {
    var p := PlanFor(env, rule);
    if p.None? then t else OfferAll(t, env, rule, p.value, Scoped(env.devices, rule.scope), terms)
  }

  // ---------------------------------------------------------------------
  // A pass creates exactly the missing jobs

  /** The database's fresh command ids are not in use. */
  ghost predicate FreshIds(t: Tables, command: nat -> CommandId) {
    && (forall i, j :: |t.jobs| <= i < j ==> command(i) != command(j))
    && (forall i :: |t.jobs| <= i ==> !JobTable.CommandTaken(t, command(i)))
  }

  ghost predicate DistinctDevices(ds: seq<Device>) {
    forall i, j :: 0 <= i < j < |ds| ==> ds[i].id != ds[j].id
  }

  lemma LastIsAnother(ds: seq<Device>)
    requires DistinctDevices(ds) && ds != []
    ensures forall d :: d in ds[..|ds| - 1] ==> d.id != ds[|ds| - 1].id
  {
  }

  predicate Due(t: Tables, env: Env, rule: Rule, p: Plan, d: Device, now: int) {
    Needs(env, rule, p, d) && !InFlight(t, d.id, p.packages, now)
  }

  function DueDevices(t: Tables, env: Env, rule: Rule, p: Plan, ds: seq<Device>, now: int): seq<Device> {
    if ds == [] then []
    else
      var last := ds[|ds| - 1];
      DueDevices(t, env, rule, p, ds[..|ds| - 1], now) + if Due(t, env, rule, p, last, now) then [last] else []
  }

  lemma {:induction false} DueDevicesAreExact(t: Tables, env: Env, rule: Rule, p: Plan, ds: seq<Device>, now: int)
    ensures forall d :: d in DueDevices(t, env, rule, p, ds, now) <==> d in ds && Due(t, env, rule, p, d, now)
    ensures DistinctDevices(ds) ==> DistinctDevices(DueDevices(t, env, rule, p, ds, now))
  {
    if ds != [] {
      var before := ds[..|ds| - 1];
      DueDevicesAreExact(t, env, rule, p, before, now);
      assert ds == before + [ds[|ds| - 1]];
      if DistinctDevices(ds) {
        LastIsAnother(ds);
      }
    }
  }

  /** The job row created for one due device. */
  function InstallJob(command: CommandId, p: Plan, device: nat, expiresAt: int): JobTable.Job {
    JobTable.NewJob(command, device, PackageWork(true, p.app.install), p.app.timeout, expiresAt)
  }

  ghost predicate Created(t: Tables, b: Tables, p: Plan, due: seq<Device>, terms: Terms) {
    && b.outputs == t.outputs && |b.jobs| == |t.jobs| + |due|
    && (forall k :: 0 <= k < |t.jobs| ==> b.jobs[k] == t.jobs[k])
    && (forall k :: |t.jobs| <= k < |b.jobs| ==>
          b.jobs[k] == InstallJob(terms.command(k), p, due[k - |t.jobs|].id, terms.expiresAt))
  }

  lemma NewJobsBlockOnlyTheirDevice(t: Tables, b: Tables, p: Plan, due: seq<Device>, terms: Terms, device: nat, packages: seq<string>)
    requires Created(t, b, p, due, terms) && forall k :: 0 <= k < |due| ==> due[k].id != device
    ensures InFlight(b, device, packages, terms.now) <==> InFlight(t, device, packages, terms.now)
  {
  }

  lemma CommandIsFree(t: Tables, b: Tables, p: Plan, due: seq<Device>, terms: Terms)
    requires FreshIds(t, terms.command) && Created(t, b, p, due, terms)
    ensures !JobTable.CommandTaken(b, terms.command(|b.jobs|))
  {
  }

  lemma {:induction false} OfferAllCreatesDue(t: Tables, env: Env, rule: Rule, p: Plan, ds: seq<Device>, terms: Terms)
    requires FreshIds(t, terms.command) && DistinctDevices(ds)
    ensures Created(t, OfferAll(t, env, rule, p, ds, terms), p, DueDevices(t, env, rule, p, ds, terms.now), terms)
  {
    if ds != [] {
      var before, d := ds[..|ds| - 1], ds[|ds| - 1];
      OfferAllCreatesDue(t, env, rule, p, before, terms);
      var b := OfferAll(t, env, rule, p, before, terms);
      var due := DueDevices(t, env, rule, p, before, terms.now);
      DueDevicesAreExact(t, env, rule, p, before, terms.now);
      LastIsAnother(ds);
      forall k | 0 <= k < |due|
        ensures due[k].id != d.id
      {
        assert due[k] in due;
      }
      NewJobsBlockOnlyTheirDevice(t, b, p, due, terms, d.id, p.packages);
      CommandIsFree(t, b, p, due, terms);
    }
  }

  lemma {:induction false} ScopedIsExact(ds: seq<Device>, s: Scope)
    ensures forall d :: d in Scoped(ds, s) <==> d in ds && InScope(d, s)
    ensures DistinctDevices(ds) ==> DistinctDevices(Scoped(ds, s))
  {
    if ds != [] {
      var before := ds[..|ds| - 1];
      ScopedIsExact(before, s);
      assert ds == before + [ds[|ds| - 1]];
      if DistinctDevices(ds) {
        LastIsAnother(ds);
      }
    }
  }

  /** The device gets a new job in this pass: stated on the tables as they were before it. */
  predicate ShouldGet(t: Tables, env: Env, rule: Rule, p: Plan, d: Device, now: int) {
    d in env.devices && InScope(d, rule.scope) && Due(t, env, rule, p, d, now)
  }

  ghost predicate GotJob(t: Tables, b: Tables, p: Plan, device: nat, terms: Terms, k: nat) {
    |t.jobs| <= k < |b.jobs| && b.jobs[k] == InstallJob(terms.command(k), p, device, terms.expiresAt)
  }

  /** The new row `k` is the job of a device that should get one. */
  ghost predicate Justified(t: Tables, b: Tables, env: Env, rule: Rule, p: Plan, terms: Terms, k: nat) {
    exists d :: ShouldGet(t, env, rule, p, d, terms.now) && GotJob(t, b, p, d.id, terms, k)
  }

  lemma PassCreatesDue(t: Tables, env: Env, rule: Rule, p: Plan, terms: Terms)
    requires FreshIds(t, terms.command) && DistinctDevices(env.devices) && PlanFor(env, rule) == Some(p)
    ensures var b := Reconciled(t, env, rule, terms);
      && b.outputs == t.outputs && |t.jobs| <= |b.jobs|
      && (forall k :: 0 <= k < |t.jobs| ==> b.jobs[k] == t.jobs[k])
      && (forall d :: ShouldGet(t, env, rule, p, d, terms.now) ==> exists k :: GotJob(t, b, p, d.id, terms, k))
      && (forall k :: |t.jobs| <= k < |b.jobs| ==> Justified(t, b, env, rule, p, terms, k))
      && (forall i, j :: |t.jobs| <= i < j < |b.jobs| ==> b.jobs[i].device != b.jobs[j].device)
  {
    var ds := Scoped(env.devices, rule.scope);
    var b := Reconciled(t, env, rule, terms);
    var due := DueDevices(t, env, rule, p, ds, terms.now);
    ScopedIsExact(env.devices, rule.scope);
    DueDevicesAreExact(t, env, rule, p, ds, terms.now);
    OfferAllCreatesDue(t, env, rule, p, ds, terms);
    DueIsShouldGet(t, env, rule, p, due, terms.now);
    forall d | ShouldGet(t, env, rule, p, d, terms.now)
      ensures exists k :: GotJob(t, b, p, d.id, terms, k)
    {
      var k :| 0 <= k < |due| && due[k] == d;
      assert GotJob(t, b, p, d.id, terms, |t.jobs| + k);
    }
    forall k | |t.jobs| <= k < |b.jobs|
      ensures Justified(t, b, env, rule, p, terms, k)
      ensures b.jobs[k].device == due[k - |t.jobs|].id
    {
      var d := due[k - |t.jobs|];
      assert d in due && GotJob(t, b, p, d.id, terms, k);
    }
  }

  lemma DueIsShouldGet(t: Tables, env: Env, rule: Rule, p: Plan, due: seq<Device>, now: int)
    requires due == DueDevices(t, env, rule, p, Scoped(env.devices, rule.scope), now)
    ensures forall d :: d in due <==> ShouldGet(t, env, rule, p, d, now)
  {
    ScopedIsExact(env.devices, rule.scope);
    DueDevicesAreExact(t, env, rule, p, Scoped(env.devices, rule.scope), now);
  }

  /** The device's tags fit the rule's: all of them are there, or any of them, or none are asked for. */
  ghost predicate TagsAsked(f: Filters, d: Device) {
    f.tags == [] || if f.all then forall t :: t in f.tags ==> t in d.tags else exists t :: t in f.tags && t in d.tags
  }

  /** The device's inventory lists the name, in whatever case. */
  ghost predicate Shown(env: Env, device: nat, name: string) {
    device in env.inventory && exists x :: x in env.inventory[device] && env.lower(x) == env.lower(name)
  }

  /** Whatever proves the app installed is listed for the device: its detection names, or else its packages. */
  ghost predicate Detected(env: Env, app: AppPackage, device: nat)
    requires ParsePackageSpec(app.install).Ok?
  {
    && (app.detection != [] ==> forall n :: n in app.detection ==> Shown(env, device, n))
    && (app.detection == [] ==> forall n :: n in ParsePackageSpec(app.install).value ==> Shown(env, device, n))
  }

  /** The job is an install of one of the packages on the device, still open or succeeded less than a day ago. */
  ghost predicate StandsInTheWay(j: JobTable.Job, app: AppPackage, device: nat, now: int)
    requires ParsePackageSpec(app.install).Ok?
  {
    && j.device == device && j.work.PackageWork? && j.work.install
    && (j.status in {JobTable.Pending, JobTable.Sent, JobTable.Running}
        || (j.status == JobTable.Succeeded && j.finishedAt.Some? && now - j.finishedAt.value < 86400))
    && exists n :: n in ParsePackageSpec(app.install).value && Names(j.work.spec, n)
  }

  /**
   The device is missing what the rule deploys: it is active and in scope, passes the filters, lacks
   the app and has no overlapping install under way; and the rule can be carried out.
   */
  ghost predicate Missing(t: Tables, env: Env, rule: Rule, d: Device, now: int) {
    && d in env.devices && d.active
    && (match rule.scope
        case Tenant => true
        case OfCustomer(c) => d.customer == c
        case OfSite(s) => d.site == s
        case OfDevice(id) => d.id == id)
    && rule.package in env.packages && !env.packages[rule.package].archived
    && var app := env.packages[rule.package];
    && ParsePackageSpec(app.install).Ok? && ParsePackageSpec(app.install).value != []
    && env.sameOS(d.os, app.os) && TagsAsked(rule.filters, d)
    && (rule.filters.hostnameRegex == "" ||
        (env.compile(rule.filters.hostnameRegex).Some? && env.compile(rule.filters.hostnameRegex).value(d.hostname)))
    && !Detected(env, app, d.id)
    && !exists k :: 0 <= k < |t.jobs| && StandsInTheWay(t.jobs[k], app, d.id, now)
  }

  lemma DetectedIsHasApp(env: Env, app: AppPackage, device: nat, names: seq<string>)
    requires ParsePackageSpec(app.install).Ok? && ParsePackageSpec(app.install).value != []
    requires names == if app.detection == [] then ParsePackageSpec(app.install).value else app.detection
    ensures Detected(env, app, device) <==> HasApp(env, device, names)
  {
    forall n
      ensures Shown(env, device, n) <==> device in env.inventory && Listed(env.lower, env.inventory[device], n)
    {
      if device in env.inventory {
        if k :| 0 <= k < |env.inventory[device]| && env.lower(env.inventory[device][k]) == env.lower(n) {
          assert env.inventory[device][k] in env.inventory[device];
        }
      }
    }
    assert names[0] in names;
  }

  lemma InTheWayIsBlocks(j: JobTable.Job, app: AppPackage, device: nat, packages: seq<string>, now: int)
    requires ParsePackageSpec(app.install) == Ok(packages)
    ensures StandsInTheWay(j, app, device, now) <==> Blocks(j, device, packages, now)
  {
  }

  /** With a plan, a device should get a job exactly if it is missing what the rule deploys; without one, none is. */
  lemma MissingIsShouldGet(t: Tables, env: Env, rule: Rule, d: Device, now: int)
    ensures Missing(t, env, rule, d, now) ==> PlanFor(env, rule).Some?
    ensures PlanFor(env, rule).Some? ==> (Missing(t, env, rule, d, now) <==> ShouldGet(t, env, rule, PlanFor(env, rule).value, d, now))
  {
    if PlanFor(env, rule).Some? {
      var p := PlanFor(env, rule).value;
      DetectedIsHasApp(env, p.app, d.id, p.names);
      forall k | 0 <= k < |t.jobs|
        ensures StandsInTheWay(t.jobs[k], p.app, d.id, now) <==> Blocks(t.jobs[k], d.id, p.packages, now)
      {
        InTheWayIsBlocks(t.jobs[k], p.app, d.id, p.packages, now);
      }
    }
  }

  /** Row `k` is a fresh install job for the device: the package's own spec and timeout, nothing sent yet. */
  ghost predicate IsFreshInstall(j: JobTable.Job, app: AppPackage, device: nat, command: CommandId, expiresAt: int) {
    j == JobTable.Job(command, device, PackageWork(true, app.install), app.timeout, expiresAt, JobTable.Pending, None, None, None)
  }

  ghost predicate InstallFor(t: Tables, b: Tables, env: Env, rule: Rule, terms: Terms, d: Device, k: nat) {
    rule.package in env.packages && |t.jobs| <= k < |b.jobs| && IsFreshInstall(b.jobs[k], env.packages[rule.package], d.id, terms.command(k), terms.expiresAt)
  }

  /** The new row `k` is the install of a device that was missing it. */
  ghost predicate IsMissed(t: Tables, b: Tables, env: Env, rule: Rule, terms: Terms, k: nat) {
    exists d :: Missing(t, env, rule, d, terms.now) && InstallFor(t, b, env, rule, terms, d, k)
  }

  /**
   A rule's pass leaves every earlier row alone and creates jobs for exactly the devices that are
   missing what it deploys: each such device gets one, and nobody else gets any.  A rule whose
   package is gone, archived or unusable, or whose hostname pattern is bad, creates none.
   */
  lemma PassCreatesExactlyTheMissing(t: Tables, env: Env, rule: Rule, terms: Terms)
    requires FreshIds(t, terms.command) && DistinctDevices(env.devices)
    ensures var b := Reconciled(t, env, rule, terms);
      && b.outputs == t.outputs && |t.jobs| <= |b.jobs|
      && (forall k :: 0 <= k < |t.jobs| ==> b.jobs[k] == t.jobs[k])
      && (forall d :: Missing(t, env, rule, d, terms.now) ==> exists k :: InstallFor(t, b, env, rule, terms, d, k))
      && (forall k :: |t.jobs| <= k < |b.jobs| ==> IsMissed(t, b, env, rule, terms, k))
      && (forall i, j :: |t.jobs| <= i < j < |b.jobs| ==> b.jobs[i].device != b.jobs[j].device)
  {
    forall d {
      MissingIsShouldGet(t, env, rule, d, terms.now);
    }
    if PlanFor(env, rule).Some? {
      PassOfPlan(t, env, rule, PlanFor(env, rule).value, terms);
    }
  }

  lemma PassOfPlan(t: Tables, env: Env, rule: Rule, p: Plan, terms: Terms)
    requires FreshIds(t, terms.command) && DistinctDevices(env.devices) && PlanFor(env, rule) == Some(p)
    requires forall d :: Missing(t, env, rule, d, terms.now) <==> ShouldGet(t, env, rule, p, d, terms.now)
    ensures var b := Reconciled(t, env, rule, terms);
      && b.outputs == t.outputs && |t.jobs| <= |b.jobs|
      && (forall k :: 0 <= k < |t.jobs| ==> b.jobs[k] == t.jobs[k])
      && (forall d :: Missing(t, env, rule, d, terms.now) ==> exists k :: InstallFor(t, b, env, rule, terms, d, k))
      && (forall k :: |t.jobs| <= k < |b.jobs| ==> IsMissed(t, b, env, rule, terms, k))
      && (forall i, j :: |t.jobs| <= i < j < |b.jobs| ==> b.jobs[i].device != b.jobs[j].device)
  {
    var b := Reconciled(t, env, rule, terms);
    PassCreatesDue(t, env, rule, p, terms);
    forall d | Missing(t, env, rule, d, terms.now)
      ensures exists k :: InstallFor(t, b, env, rule, terms, d, k)
    {
      var k :| GotJob(t, b, p, d.id, terms, k);
      assert InstallFor(t, b, env, rule, terms, d, k);
    }
    forall k | |t.jobs| <= k < |b.jobs|
      ensures IsMissed(t, b, env, rule, terms, k)
    {
      assert Justified(t, b, env, rule, p, terms, k);
      var d :| ShouldGet(t, env, rule, p, d, terms.now) && GotJob(t, b, p, d.id, terms, k);
      assert InstallFor(t, b, env, rule, terms, d, k);
    }
  }

  // ---------------------------------------------------------------------
  // Jobs do not pile up

  predicate Open(j: JobTable.Job) {
    j.status.Pending? || j.status.Sent? || j.status.Running?
  }

  ghost predicate Disjoint(i: JobTable.Job, j: JobTable.Job) {
    forall n :: !(Installs(i, n) && Installs(j, n))
  }

  /** The job table with the ids of the jobs the reconciler created. */
  datatype State = State(tables: Tables, ours: set<nat>)

  datatype Event =
    | Table(e: JobTable.Event)  // API creations, mark-sent, results and sweeps
    | Pass(env: Env, rule: Rule, terms: Terms)

  predicate IsNew(a: Tables, b: Tables, k: int) {
    |a.jobs| <= k < |b.jobs|
  }

  function NewIds(a: Tables, b: Tables): set<nat> {
    set k | |a.jobs| <= k < |b.jobs| && IsNew(a, b, k)
  }

  ghost function Apply(s: State, e: Event): State {
    match e
    case Table(te) => s.(tables := JobTable.Apply(s.tables, te))
    case Pass(env, rule, terms) =>
      var b := Reconciled(s.tables, env, rule, terms);
      State(b, s.ours + NewIds(s.tables, b))
  }

  ghost function After(es: seq<Event>): State {
    if es == [] then State(JobTable.Empty, {}) else Apply(After(es[..|es| - 1]), es[|es| - 1])
  }

  /** Install specs come from json.Marshal of a package list, so the database sees what they list. */
  ghost predicate VisibleWork(w: Work) {
    w.PackageWork? && w.install ==> Visible(w.spec)
  }

  ghost predicate Plain(e: Event) {
    match e
    case Table(te) => JobTable.Possible(te) && (te.Create? ==> VisibleWork(te.work))
    case Pass(env, _, _) => forall k :: k in env.packages ==> Visible(env.packages[k].install)
  }

  ghost predicate IsRun(es: seq<Event>) {
    forall k :: 0 <= k < |es| ==> Plain(es[k])
  }

  /** An open reconciler job shares no package with an older open install on its device. */
  ghost predicate NoPileAt(t: Tables, i: int, j: int) {
    0 <= i < j < |t.jobs| && t.jobs[i].device == t.jobs[j].device && IsInstall(t.jobs[i]) && Open(t.jobs[i]) && Open(t.jobs[j])
    ==> Disjoint(t.jobs[i], t.jobs[j])
  }

  ghost predicate Inv(s: State) {
    && JobTable.Inv(s.tables)
    && (forall j :: j in s.ours ==> j < |s.tables.jobs| && IsInstall(s.tables.jobs[j]))
    && (forall i :: 0 <= i < |s.tables.jobs| ==> VisibleWork(s.tables.jobs[i].work))
    && (forall i, j :: j in s.ours ==> NoPileAt(s.tables, i, j))
  }

  lemma TableKeepsInv(s: State, e: JobTable.Event)
    requires Inv(s) && Plain(Table(e))
    ensures Inv(Apply(s, Table(e)))
  {
    var t, b := s.tables, JobTable.Apply(s.tables, e);
    JobTable.StepKeepsInv(t, e);
    forall i | 0 <= i < |b.jobs|
      ensures VisibleWork(b.jobs[i].work)
    {
      if i < |t.jobs| {
        JobTable.StepKeeps(t, e, i);
      }
    }
    forall j | j in s.ours
      ensures j < |b.jobs| && IsInstall(b.jobs[j])
    {
      JobTable.StepKeeps(t, e, j);
    }
    forall i, j | j in s.ours
      ensures NoPileAt(b, i, j)
    {
      assert NoPileAt(t, i, j);
      if 0 <= i < j {
        JobTable.StepKeeps(t, e, i);
        JobTable.StepKeeps(t, e, j);
      }
    }
  }

  lemma OfferKeepsInv(s: State, env: Env, rule: Rule, p: Plan, d: Device, terms: Terms)
    requires Inv(s) && ParsePackageSpec(p.app.install) == Ok(p.packages) && Visible(p.app.install)
    ensures var b := Offer(s.tables, env, rule, p, d, terms);
      |s.tables.jobs| <= |b.jobs| && Inv(State(b, s.ours + NewIds(s.tables, b)))
  {
    var t := s.tables;
    var b := Offer(t, env, rule, p, d, terms);
    var e := InstallEvent(t, p, d.id, terms);
    if b != t {
      TableKeepsInv(s, e);
      var n := |t.jobs|;
      assert b.jobs[n] == InstallJob(terms.command(n), p, d.id, terms.expiresAt);
      forall i | 0 <= i < n && t.jobs[i].device == d.id && IsInstall(t.jobs[i]) && Open(t.jobs[i])
        ensures Disjoint(t.jobs[i], b.jobs[n])
      {
        assert !Blocks(t.jobs[i], d.id, p.packages, terms.now);
        assert VisibleWork(t.jobs[i].work);
      }
      assert NewIds(t, b) == {n};
    } else {
      assert NewIds(t, b) == {};
      assert State(b, s.ours + NewIds(t, b)) == s;
    }
  }

  lemma {:induction false} OfferAllKeepsInv(s: State, env: Env, rule: Rule, p: Plan, ds: seq<Device>, terms: Terms)
    requires Inv(s) && ParsePackageSpec(p.app.install) == Ok(p.packages) && Visible(p.app.install)
    ensures var b := OfferAll(s.tables, env, rule, p, ds, terms);
      |s.tables.jobs| <= |b.jobs| && Inv(State(b, s.ours + NewIds(s.tables, b)))
  {
    if ds == [] {
      assert State(s.tables, s.ours + NewIds(s.tables, s.tables)) == s;
    } else {
      OfferAllKeepsInv(s, env, rule, p, ds[..|ds| - 1], terms);
      var m := OfferAll(s.tables, env, rule, p, ds[..|ds| - 1], terms);
      var mid := State(m, s.ours + NewIds(s.tables, m));
      OfferKeepsInv(mid, env, rule, p, ds[|ds| - 1], terms);
      var b := OfferAll(s.tables, env, rule, p, ds, terms);
      assert s.ours + NewIds(s.tables, b) == mid.ours + NewIds(m, b);
    }
  }

  lemma {:induction false} RunKeepsInv(es: seq<Event>)
    requires IsRun(es)
    ensures Inv(After(es))
  {
    if es != [] {
      var before, e := es[..|es| - 1], es[|es| - 1];
      RunKeepsInv(before);
      var s := After(before);
      if e.Table? {
        TableKeepsInv(s, e.e);
      } else if PlanFor(e.env, e.rule).Some? {
        OfferAllKeepsInv(s, e.env, e.rule, PlanFor(e.env, e.rule).value, Scoped(e.env.devices, e.rule.scope), e.terms);
      } else {
        assert NewIds(s.tables, s.tables) == {};
        assert Apply(s, e) == s;
      }
    }
  }

  /**
   Over every run, whatever jobs the API adds and however results and sweeps arrive: two
   reconciler jobs open on one device at the same time never share a package.
   */
  lemma ReconcilerJobsNeverPileUp(es: seq<Event>, i: nat, j: nat)
    requires IsRun(es) && i != j && i in After(es).ours && j in After(es).ours
    ensures i < |After(es).tables.jobs| && j < |After(es).tables.jobs|
    ensures var a, b := After(es).tables.jobs[i], After(es).tables.jobs[j];
      var open := {JobTable.Pending, JobTable.Sent, JobTable.Running};
      && a.work.PackageWork? && a.work.install && b.work.PackageWork? && b.work.install
      && (a.device == b.device && a.status in open && b.status in open
          && ParsePackageSpec(a.work.spec).Ok? && ParsePackageSpec(b.work.spec).Ok? ==>
            forall n :: n in ParsePackageSpec(a.work.spec).value ==> n !in ParsePackageSpec(b.work.spec).value)
  {
    RunKeepsInv(es);
    assert NoPileAt(After(es).tables, i, j) && NoPileAt(After(es).tables, j, i);
    var a, b := After(es).tables.jobs[i], After(es).tables.jobs[j];
    assert forall n :: ParsePackageSpec(a.work.spec).Ok? && n in ParsePackageSpec(a.work.spec).value ==> Installs(a, n);
    assert forall n :: ParsePackageSpec(b.work.spec).Ok? && n in ParsePackageSpec(b.work.spec).value ==> Installs(b, n);
  }

  // ---------------------------------------------------------------------
  // Two workers at once

  /** A worker that has claimed a rule of its own, with what its transaction reads. */
  datatype Contender = Contender(env: Env, rule: Rule, plan: Plan, now: int, expiresAt: int)

  datatype Worker = First | Second

  datatype Stage = Ready | Decided(go: bool) | Finished

  /** Two passes over one device; a check sees the jobs committed before it, a create commits one. */
  datatype Race = Race(tables: Tables, first: Stage, second: Stage)

  datatype Move = Check(w: Worker) | Commit(w: Worker)

  function StageOf(s: Race, w: Worker): Stage {
    if w.First? then s.first else s.second
  }

  function SetStage(s: Race, w: Worker, stage: Stage): Race {
    if w.First? then s.(first := stage) else s.(second := stage)
  }

  predicate MayMove(s: Race, m: Move) {
    if m.Check? then StageOf(s, m.w).Ready? else StageOf(s, m.w).Decided?
  }

  /** What each worker's check answers, and what its commit does, on given tables. */
  datatype Passes = Passes(due: (Tables, Worker) -> bool, insert: (Tables, Worker) -> Tables)

  function MoveOn(s: Race, m: Move, ps: Passes): Race
    requires MayMove(s, m)
  {
    if m.Check? then SetStage(s, m.w, Decided(ps.due(s.tables, m.w)))
    else SetStage(s, m.w, Finished).(tables := if StageOf(s, m.w).go then ps.insert(s.tables, m.w) else s.tables)
  }

  ghost predicate Moves(m: Move, a: Race, b: Race, ps: Passes) {
    MayMove(a, m) && b == MoveOn(a, m, ps)
  }

  /** The two workers' four moves in some order, each where it can happen, from `t`. */
  ghost predicate Interleaves(t: Tables, ms: seq<Move>, ss: seq<Race>, ps: Passes) {
    && |ms| == 4 && |ss| == 5 && ss[0] == Race(t, Ready, Ready)
    && Moves(ms[0], ss[0], ss[1], ps) && Moves(ms[1], ss[1], ss[2], ps)
    && Moves(ms[2], ss[2], ss[3], ps) && Moves(ms[3], ss[3], ss[4], ps)
  }

  function Other(w: Worker): Worker {
    if w.First? then Second else First
  }

  /** The tables after `x` committed first, and the other after it, having checked before or only then. */
  function EndTables(t: Tables, ps: Passes, x: Worker, checkedBefore: bool): Tables {
    var one := ps.insert(t, x);
    if checkedBefore || ps.due(one, Other(x)) then ps.insert(one, Other(x)) else one
  }

  /** The second move tells which it was. */
  lemma AfterInterleaving(t: Tables, ms: seq<Move>, ss: seq<Race>, ps: Passes) returns (x: Worker)
    requires Interleaves(t, ms, ss, ps) && ps.due(t, First) && ps.due(t, Second)
    ensures ss[4].tables == EndTables(t, ps, x, ms[1].Check?)
  {
    x := if ms[1].Check? then ms[2].w else ms[0].w;
  }

  function TermsOf(c: Contender, command: nat -> CommandId): Terms {
    Terms(c.now, c.expiresAt, command)
  }

  predicate DueFor(t: Tables, c: Contender, d: Device) {
    Due(t, c.env, c.rule, c.plan, d, c.now)
  }

  /** The job a worker inserts for the device. */
  function Inserted(t: Tables, c: Contender, d: Device, command: nat -> CommandId): Tables {
    JobTable.Apply(t, InstallEvent(t, c.plan, d.id, TermsOf(c, command)))
  }

  /** The two passes over device `d`. */
  function PassesOver(cs: Worker -> Contender, d: Device, command: nat -> CommandId): Passes {
    Passes((t, w) => DueFor(t, cs(w), d), (t, w) => Inserted(t, cs(w), d, command))
  }

  /** Both passes created a job for the device, and the two share a package. */
  ghost predicate PiledUp(t: Tables, b: Tables, d: Device) {
    && |b.jobs| == |t.jobs| + 2
    && b.jobs[|t.jobs|].device == b.jobs[|t.jobs| + 1].device == d.id
    && Open(b.jobs[|t.jobs|]) && Open(b.jobs[|t.jobs| + 1])
    && !Disjoint(b.jobs[|t.jobs|], b.jobs[|t.jobs| + 1])
  }

  ghost predicate SharePackage(p: Plan, q: Plan) {
    exists n :: n in p.packages && n in q.packages
  }

  lemma InsertedRow(t: Tables, c: Contender, d: Device, command: nat -> CommandId)
    requires FreshIds(t, command)
    ensures var b := Inserted(t, c, d, command);
      && |b.jobs| == |t.jobs| + 1 && FreshIds(b, command)
      && b.jobs[|t.jobs|] == InstallJob(command(|t.jobs|), c.plan, d.id, c.expiresAt)
      && forall k :: 0 <= k < |t.jobs| ==> b.jobs[k] == t.jobs[k]
  {
    assert !JobTable.CommandTaken(t, command(|t.jobs|));
    var b := Inserted(t, c, d, command);
    forall i | |b.jobs| <= i
      ensures !JobTable.CommandTaken(b, command(i))
    {
      assert !JobTable.CommandTaken(t, command(i));
      forall k | 0 <= k < |b.jobs|
        ensures b.jobs[k].command != command(i)
      {
        assert k < |t.jobs| ==> b.jobs[k] == t.jobs[k];
      }
    }
  }

  /** Two jobs inserted one after the other overlap exactly if their plans share a package. */
  lemma InsertedTwice(t: Tables, c: Contender, e: Contender, d: Device, command: nat -> CommandId)
    requires FreshIds(t, command) && Planned(c) && Planned(e)
    ensures PiledUp(t, Inserted(Inserted(t, c, d, command), e, d, command), d) <==> SharePackage(c.plan, e.plan)
  {
    var one := Inserted(t, c, d, command);
    InsertedRow(t, c, d, command);
    InsertedRow(one, e, d, command);
    var two := Inserted(one, e, d, command);
    var i, j := two.jobs[|t.jobs|], two.jobs[|t.jobs| + 1];
    assert forall n :: Installs(i, n) <==> n in c.plan.packages;
    assert forall n :: Installs(j, n) <==> n in e.plan.packages;
  }

  /** The plan is the one its rule gives, from a catalogue entry the API wrote. */
  ghost predicate Planned(c: Contender) {
    PlanFor(c.env, c.rule) == Some(c.plan) && Visible(c.plan.app.install)
  }

  /** A pass that checks after the other's job is committed sees it if they share a package. */
  lemma SecondCheckSees(t: Tables, c: Contender, e: Contender, d: Device, command: nat -> CommandId)
    requires FreshIds(t, command) && Planned(c) && SharePackage(c.plan, e.plan)
    ensures !DueFor(Inserted(t, c, d, command), e, d)
  {
    InsertedRow(t, c, d, command);
    var n :| n in c.plan.packages && n in e.plan.packages;
    assert Blocks(Inserted(t, c, d, command).jobs[|t.jobs|], d.id, e.plan.packages, e.now);
  }

  /** The tables after `c` committed first, and `e` after it, having checked before or only then. */
  function BothPassed(t: Tables, c: Contender, e: Contender, d: Device, command: nat -> CommandId, checkedBefore: bool): Tables {
    var one := Inserted(t, c, d, command);
    if checkedBefore || DueFor(one, e, d) then Inserted(one, e, d, command) else one
  }

  lemma PilesUpIffUnseen(t: Tables, c: Contender, e: Contender, d: Device, command: nat -> CommandId, checkedBefore: bool)
    requires FreshIds(t, command) && Planned(c) && Planned(e)
    ensures PiledUp(t, BothPassed(t, c, e, d, command, checkedBefore), d) <==> checkedBefore && SharePackage(c.plan, e.plan)
  {
    InsertedRow(t, c, d, command);
    InsertedTwice(t, c, e, d, command);
    if SharePackage(c.plan, e.plan) {
      SecondCheckSees(t, c, e, d, command);
    }
  }

  /** A worker whose plan is that of its rule, and that finds the device due in `t`. */
  ghost predicate Eager(t: Tables, c: Contender, d: Device) {
    DueFor(t, c, d) && Planned(c)
  }

  ghost predicate EndsAs(t: Tables, b: Tables, c: Contender, e: Contender, d: Device, command: nat -> CommandId, checkedBefore: bool) {
    b == BothPassed(t, c, e, d, command, checkedBefore) || b == BothPassed(t, e, c, d, command, checkedBefore)
  }

  lemma EndOfRace(t: Tables, ms: seq<Move>, ss: seq<Race>, cs: Worker -> Contender, d: Device, command: nat -> CommandId)
    requires Interleaves(t, ms, ss, PassesOver(cs, d, command)) && Eager(t, cs(First), d) && Eager(t, cs(Second), d)
    ensures EndsAs(t, ss[4].tables, cs(First), cs(Second), d, command, ms[1].Check?)
  {
    var ps := PassesOver(cs, d, command);
    assert ps.due(t, First) && ps.due(t, Second);
    var x := AfterInterleaving(t, ms, ss, ps);
    EndsInTurn(t, ss[4].tables, ps, cs, d, command, ms[1].Check?, x);
  }

  lemma EndsInTurn(t: Tables, b: Tables, ps: Passes, cs: Worker -> Contender, d: Device, command: nat -> CommandId, checkedBefore: bool, x: Worker)
    requires ps == PassesOver(cs, d, command)
    requires b == EndTables(t, ps, x, checkedBefore)
    ensures EndsAs(t, b, cs(First), cs(Second), d, command, checkedBefore)
  {
    assert b == BothPassed(t, cs(x), cs(Other(x)), d, command, checkedBefore);
  }

  lemma PilesUpEitherWay(t: Tables, b: Tables, c: Contender, e: Contender, d: Device, command: nat -> CommandId, checkedBefore: bool)
    requires FreshIds(t, command) && Eager(t, c, d) && Eager(t, e, d)
    requires EndsAs(t, b, c, e, d, command, checkedBefore)
    ensures PiledUp(t, b, d) <==> checkedBefore && SharePackage(c.plan, e.plan)
  {
    PilesUpIffUnseen(t, c, e, d, command, checkedBefore);
    PilesUpIffUnseen(t, e, c, d, command, checkedBefore);
  }

  /**
   The rule rows are locked while claimed, so two workers reconcile different rules; but their
   checks do not exclude each other.  Over every interleaving of two passes that each find the
   device due, overlapping jobs are created exactly if the plans share a package and both
   checks come before either commit.
   */
  lemma OverlappingPassesPileUpIff(t: Tables, ms: seq<Move>, ss: seq<Race>, cs: Worker -> Contender, d: Device, command: nat -> CommandId)
    requires FreshIds(t, command) && Interleaves(t, ms, ss, PassesOver(cs, d, command))
    requires Eager(t, cs(First), d) && Eager(t, cs(Second), d)
    ensures PiledUp(t, ss[4].tables, d) <==> ms[1].Check? && SharePackage(cs(First).plan, cs(Second).plan)
  {
    EndOfRace(t, ms, ss, cs, d, command);
    PilesUpEitherWay(t, ss[4].tables, cs(First), cs(Second), d, command, ms[1].Check?);
  }

  /** Such interleavings exist for any two workers: both checks first, or one pass after the other. */
  lemma PassesCanOverlap(t: Tables, ps: Passes, overlap: bool) returns (ms: seq<Move>, ss: seq<Race>)
    ensures Interleaves(t, ms, ss, ps) && (ms[1].Check? <==> overlap)
  {
    ms := if overlap then [Check(First), Check(Second), Commit(First), Commit(Second)]
          else [Check(First), Commit(First), Check(Second), Commit(Second)];
    var s0 := Race(t, Ready, Ready);
    var s1 := MoveOn(s0, ms[0], ps);
    var s2 := MoveOn(s1, ms[1], ps);
    var s3 := MoveOn(s2, ms[2], ps);
    ss := [s0, s1, s2, s3, MoveOn(s3, ms[3], ps)];
  }

  // ---------------------------------------------------------------------
  // Rules run at most hourly

  predicate RuleDue(env: Env, r: Rule, now: int) {
    && r.enabled && r.package in env.packages && !env.packages[r.package].archived
    && (r.lastRun.None? || r.lastRun.value < now - HOUR)
  }

  /** A rule's life: claims that found it due, and edits, which never touch its last run. */
  datatype RuleEvent =
    | Claim(env: Env, now: int)
    | Edit(package: nat, scope: Scope, filters: Filters, enabled: bool)

  function RuleAfter(r: Rule, es: seq<RuleEvent>): Rule {
    if es == [] then r
    else
      var before := RuleAfter(r, es[..|es| - 1]);
      match es[|es| - 1]
      case Claim(env, now) => if RuleDue(env, before, now) then before.(lastRun := Some(now)) else before
      case Edit(package, scope, filters, enabled) => Rule(package, scope, filters, enabled, before.lastRun)
  }

  /** The times at which the rule was claimed. */
  function Runs(r: Rule, es: seq<RuleEvent>): seq<int> {
    if es == [] then []
    else
      var before := Runs(r, es[..|es| - 1]);
      var e := es[|es| - 1];
      if e.Claim? && RuleDue(e.env, RuleAfter(r, es[..|es| - 1]), e.now) then before + [e.now] else before
  }

  /** Any two consecutive runs of one rule are more than an hour apart, across edits and workers. */
  lemma {:induction false} RunsAreHourly(r: Rule, es: seq<RuleEvent>)
    requires r.lastRun.None?
    ensures var runs := Runs(r, es);
      && RuleAfter(r, es).lastRun == (if runs == [] then None else Some(runs[|runs| - 1]))
      && forall k :: 0 < k < |runs| ==> runs[k] - runs[k - 1] > 3600
  {
    if es != [] {
      RunsAreHourly(r, es[..|es| - 1]);
    }
  }

  // ---------------------------------------------------------------------
  // The worker's loops

  method TagsMatch(deviceTags: seq<string>, want: seq<string>, all: bool) returns (ok: bool)
    ensures ok <==> TagsFit(deviceTags, want, all)
    ensures all ==> (ok <==> forall t :: t in want ==> t in deviceTags)
    ensures !all ==> (ok <==> exists t :: t in want && t in deviceTags)
  {
    var has: set<string> := {};
    for i := 0 to |deviceTags|
      invariant has == set t | t in deviceTags[..i]
    {
      assert deviceTags[..i + 1] == deviceTags[..i] + [deviceTags[i]];
      has := has + {deviceTags[i]};
    }
    assert deviceTags[..|deviceTags|] == deviceTags;
    if all {
      for i := 0 to |want|
        invariant forall k :: 0 <= k < i ==> want[k] in has
      {
        if want[i] !in has {
          return false;
        }
      }
      return true;
    }
    for i := 0 to |want|
      invariant forall k :: 0 <= k < i ==> want[k] !in has
    {
      if want[i] in has {
        return true;
      }
    }
    return false;
  }

  method DeviceHasApp(env: Env, device: nat, names: seq<string>) returns (ok: bool)
    ensures ok <==> HasApp(env, device, names)
  {
    if |names| == 0 || device !in env.inventory {
      return false;
    }
    var pkgs := env.inventory[device];
    var present: set<string> := {};
    for i := 0 to |pkgs|
      invariant forall x :: x in present <==> exists k :: 0 <= k < i && env.lower(pkgs[k]) == x
    {
      present := present + {env.lower(pkgs[i])};
    }
    for i := 0 to |names|
      invariant forall k :: 0 <= k < i ==> Listed(env.lower, pkgs, names[k])
    {
      if env.lower(names[i]) !in present {
        assert !Listed(env.lower, pkgs, names[i]);
        return false;
      }
    }
    return true;
  }

  method DevicesInScope(devices: seq<Device>, s: Scope) returns (out: seq<Device>)
    ensures out == Scoped(devices, s)
  {
    out := [];
    for i := 0 to |devices|
      invariant out == Scoped(devices[..i], s)
    {
      assert devices[..i + 1][..i] == devices[..i];
      if InScope(devices[i], s) {
        out := out + [devices[i]];
      }
    }
    assert devices[..|devices|] == devices;
  }

  method DeviceMatchesRule(env: Env, p: Plan, f: Filters, d: Device) returns (ok: bool)
    ensures ok <==> Matches(env, p, f, d)
  {
    if !env.sameOS(d.os, p.app.os) {
      return false;
    }
    if |f.tags| > 0 {
      var fits := TagsMatch(d.tags, f.tags, f.all);
      if !fits {
        return false;
      }
    }
    if p.host.Some? && !p.host.value(d.hostname) {
      return false;
    }
    return true;
  }

  /** reconcileRule: its inserts go to the store in the order of the device list. */
  method ReconcileRule(store: JobTable.JobStore, env: Env, rule: Rule, terms: Terms) returns (created: seq<nat>)
    modifies store
    ensures store.Contents() == Reconciled(old(store.Contents()), env, rule, terms)
    ensures |created| == |store.jobs| - |old(store.jobs)|
    ensures forall k :: 0 <= k < |created| ==> created[k] == |old(store.jobs)| + k
  {
    created := [];
    var plan := PlanFor(env, rule);
    if plan.None? {
      return;
    }
    var p := plan.value;
    ghost var t := store.Contents();
    var devices := DevicesInScope(env.devices, rule.scope);
    for i := 0 to |devices|
      invariant store.Contents() == OfferAll(t, env, rule, p, devices[..i], terms)
      invariant |created| == |store.jobs| - |t.jobs|
      invariant forall k :: 0 <= k < |created| ==> created[k] == |t.jobs| + k
    {
      assert devices[..i + 1][..i] == devices[..i];
      var id := OfferTo(store, env, rule, p, devices[i], terms);
      if id.Some? {
        created := created + [id.value];
      }
    }
    assert devices[..|devices|] == devices;
  }

  /** One device's turn. */
  method OfferTo(store: JobTable.JobStore, env: Env, rule: Rule, p: Plan, d: Device, terms: Terms) returns (id: Option<nat>)
    modifies store
    ensures store.Contents() == Offer(old(store.Contents()), env, rule, p, d, terms)
    ensures id.Some? ==> id.value == |old(store.jobs)| && |store.jobs| == |old(store.jobs)| + 1
    ensures id.None? ==> |store.jobs| == |old(store.jobs)|
  {
    var matches := DeviceMatchesRule(env, p, rule.filters, d);
    if !matches {
      return None;
    }
    var installed := DeviceHasApp(env, d.id, p.names);
    if installed {
      return None;
    }
    if InFlight(store.Contents(), d.id, p.packages, terms.now) {
      return None;
    }
    id := store.CreateJob(terms.command(|store.jobs|), d.id, PackageWork(true, p.app.install), p.app.timeout, terms.expiresAt);
  }

  /** The rules ClaimDueDeploymentRules may take: due, unlocked, stalest first, cut off at the limit. */
  ghost predicate IsClaim(rules: seq<Rule>, env: Env, now: int, locked: set<nat>, limit: nat, ids: seq<nat>) {
    && |ids| <= limit
    && (forall k :: 0 <= k < |ids| ==> ids[k] < |rules| && ids[k] !in locked && RuleDue(env, rules[ids[k]], now))
    && (forall j, k :: 0 <= j < k < |ids| ==> ids[j] != ids[k] && !Staler(rules[ids[k]], rules[ids[j]]))
    && (forall id :: 0 <= id < |rules| && id !in locked && RuleDue(env, rules[id], now) && id !in ids ==>
          |ids| == limit && forall k :: 0 <= k < |ids| ==> !Staler(rules[id], rules[ids[k]]))
  }

  /** ORDER BY last_run_at NULLS FIRST. */
  predicate Staler(a: Rule, b: Rule) {
    b.lastRun.Some? && (a.lastRun.None? || a.lastRun.value < b.lastRun.value)
  }

  /** A claim leaves a due, unlocked rule only if its batch is full of rules that ran no later. */
  lemma DueRuleIsClaimed(rules: seq<Rule>, env: Env, now: int, locked: set<nat>, limit: nat, ids: seq<nat>, id: nat)
    requires IsClaim(rules, env, now, locked, limit, ids)
    requires id < |rules| && rules[id].enabled && rules[id].package in env.packages && !env.packages[rules[id].package].archived
    requires rules[id].lastRun.None? || now - rules[id].lastRun.value > 3600
    requires id !in locked && id !in ids
    ensures |ids| == limit
    ensures forall k :: 0 <= k < |ids| ==>
              && ids[k] < |rules|
              && (rules[ids[k]].lastRun.Some? ==> rules[id].lastRun.Some? && rules[ids[k]].lastRun.value <= rules[id].lastRun.value)
  {
    assert RuleDue(env, rules[id], now);
    assert forall k :: 0 <= k < |ids| ==> !Staler(rules[id], rules[ids[k]]);
  }

  /** And it takes only enabled rules with a live package that have not run for an hour, at most `limit` of them. */
  lemma ClaimedRulesAreDue(rules: seq<Rule>, env: Env, now: int, locked: set<nat>, limit: nat, ids: seq<nat>, id: nat)
    requires IsClaim(rules, env, now, locked, limit, ids) && id in ids
    ensures id < |rules| && id !in locked && |ids| <= limit
    ensures rules[id].enabled && rules[id].package in env.packages && !env.packages[rules[id].package].archived
    ensures rules[id].lastRun.None? || now - rules[id].lastRun.value > 3600
  {
  }

  function ClaimedRules(rules: seq<Rule>, ids: seq<nat>, now: int): seq<Rule> {
    seq(|rules|, k requires 0 <= k < |rules| => if k in ids then rules[k].(lastRun := Some(now)) else rules[k])
  }

  /** A claimed rule takes exactly the claim step of its own life. */
  lemma ClaimIsARun(rules: seq<Rule>, env: Env, now: int, locked: set<nat>, limit: nat, ids: seq<nat>, id: nat, es: seq<RuleEvent>, r: Rule)
    requires IsClaim(rules, env, now, locked, limit, ids) && id in ids && RuleAfter(r, es) == rules[id]
    ensures RuleAfter(r, es + [Claim(env, now)]) == ClaimedRules(rules, ids, now)[id]
    ensures Runs(r, es + [Claim(env, now)]) == Runs(r, es) + [now]
  {
  }

  function ReconciledAll(t: Tables, env: Env, rules: seq<Rule>, ids: seq<nat>, terms: nat -> Terms): Tables
    requires forall k :: 0 <= k < |ids| ==> ids[k] < |rules|
  {
    if ids == [] then t
    else
      var last := ids[|ids| - 1];
      Reconciled(ReconciledAll(t, env, rules, ids[..|ids| - 1], terms), env, rules[last], terms(last))
  }

  class RuleTable {
    var rules: seq<Rule>

    /** The claiming transaction of one tick; `ids` is what the claim statement returned. */
    method ReconcileDeployments(store: JobTable.JobStore, env: Env, ids: seq<nat>, now: int,
                                locked: set<nat>, limit: nat, terms: nat -> Terms)
      requires IsClaim(rules, env, now, locked, limit, ids)
      modifies this, store
      ensures rules == ClaimedRules(old(rules), ids, now)
      ensures store.Contents() == ReconciledAll(old(store.Contents()), env, rules, ids, terms)
    {
      rules := ClaimedRules(rules, ids, now);
      ghost var t := store.Contents();
      for i := 0 to |ids|
        invariant rules == ClaimedRules(old(rules), ids, now)
        invariant store.Contents() == ReconciledAll(t, env, rules, ids[..i], terms)
      {
        assert ids[..i + 1][..i] == ids[..i];
        var _ := ReconcileRule(store, env, rules[ids[i]], terms(ids[i]));
      }
      assert ids[..|ids|] == ids;
    }
  }
}
