/**
 Threshold evaluation for one device (server/internal/alerts/evaluate.go): which conditions
 hold now, which rule types were assessed at all, and the key that identifies a condition.
 */
module AlertRules {
  import opened Wrappers
  import opened Identifiers
  import opened Policies

  datatype DiskUsage = DiskUsage(mount: string, used: int, total: int)

  datatype DeviceState = DeviceState(
    device: Uuid,
    lastSeen: Option<int>,             // seconds
    hasRecentStats: bool,
    avgCpuPct: real,
    memUsedPct: real,
    disks: seq<DiskUsage>,
    servicesFresh: bool,
    services: map<string, string>)

  datatype Finding = Finding(policy: Id, channels: seq<Id>, rule: RuleType, extra: string, key: string, severity: string)

  const RUNNING := "running"

  function SeverityOr(s: string): string {
    if s == "" then "warning" else s
  }

  function Suffix(extra: string): string {
    if extra != "" then ":" + extra else ""
  }

  function DedupKey(device: Uuid, rt: RuleType, extra: string): string {
    device + ":" + RuleName(rt) + Suffix(extra)
  }

  lemma RuleNamesDiffer(a: RuleType, b: RuleType)
    requires RuleName(a) == RuleName(b)
    ensures a == b
  {
    var x, y := RuleName(a), RuleName(b);
    assert |x| == |y| && x[0] == y[0];
  }

  function FirstColon(s: string): nat {
    if s == "" || s[0] == ':' then 0 else 1 + FirstColon(s[1..])
  }

  lemma {:induction false} FirstColonAfterPrefix(a: string, x: string)
    requires ':' !in a && (x == "" || x[0] == ':')
    ensures FirstColon(a + x) == |a|
  {
    if a == "" {
      assert a + x == x;
    } else {
      assert (a + x)[1..] == a[1..] + x;
      FirstColonAfterPrefix(a[1..], x);
    }
  }

  /** The first colon of a string ends its colon-free prefix. */
  lemma ColonFreePrefix(a: string, x: string, b: string, y: string)
    requires ':' !in a && (x == "" || x[0] == ':')
    requires ':' !in b && (y == "" || y[0] == ':')
    requires a + x == b + y
    ensures a == b && x == y
  {
    FirstColonAfterPrefix(a, x);
    FirstColonAfterPrefix(b, y);
    assert (a + x)[..|a|] == a && (b + y)[..|b|] == b;
    assert (a + x)[|a|..] == x && (b + y)[|b|..] == y;
  }

  lemma ColonJoinInjective(a: string, x: string, b: string, y: string)
    requires ':' !in a && ':' !in b && a + (":" + x) == b + (":" + y)
    ensures a == b && x == y
  {
    ColonFreePrefix(a, ":" + x, b, ":" + y);
    assert (":" + x)[1..] == x && (":" + y)[1..] == y;
  }

  lemma SuffixInjective(e1: string, e2: string)
    requires Suffix(e1) == Suffix(e2)
    ensures e1 == e2
  {
    assert e1 != "" ==> Suffix(e1)[1..] == e1;
    assert e2 != "" ==> Suffix(e2)[1..] == e2;
  }

  /** A key names one device, one rule type and one mount or service: nothing else shares it. */
  lemma DedupKeyInjective(d1: Uuid, t1: RuleType, e1: string, d2: Uuid, t2: RuleType, e2: string)
    requires DedupKey(d1, t1, e1) == DedupKey(d2, t2, e2)
    ensures d1 == d2 && t1 == t2 && e1 == e2
  {
    KeyInThreeParts(d1, RuleName(t1), Suffix(e1));
    KeyInThreeParts(d2, RuleName(t2), Suffix(e2));
    ColonJoinInjective(d1, RuleName(t1) + Suffix(e1), d2, RuleName(t2) + Suffix(e2));
    ColonFreePrefix(RuleName(t1), Suffix(e1), RuleName(t2), Suffix(e2));
    RuleNamesDiffer(t1, t2);
    SuffixInjective(e1, e2);
  }

  lemma KeyInThreeParts(device: string, name: string, suffix: string)
    ensures device + ":" + name + suffix == device + (":" + (name + suffix))
  {
  }

  // ---------------------------------------------------------------------
  // What holds, declaratively

  predicate FullDisk(rule: DiskRule, d: DiskUsage) {
    && (rule.mounts == [] || d.mount in rule.mounts)
    && d.total > 0
    && d.used as real / d.total as real * 100.0 >= rule.threshold
  }

  predicate IsDown(services: map<string, string>, name: string) {
    !(name in services && services[name] == RUNNING)
  }

  predicate OfflineNow(now: int, rule: OfflineRule, lastSeen: Option<int>) {
    lastSeen.Some? && now - lastSeen.value >= rule.afterS
  }

  /**
   The condition `(rt, extra)` holds for the device now: not seen for the rule's time, a percentage
   at or over its threshold, a watched mount that full, a watched service not reported as running.
   */
  ghost predicate Holds(now: int, eff: Effective, st: DeviceState, rt: RuleType, extra: string) {
    match rt
    case Offline => extra == "" && eff.offline.Some? && st.lastSeen.Some? && now - st.lastSeen.value >= eff.offline.value.rule.afterS
    case CpuPct => extra == "" && st.hasRecentStats && eff.cpuPct.Some? && st.avgCpuPct >= eff.cpuPct.value.rule.threshold
    case MemPct => extra == "" && st.hasRecentStats && eff.memPct.Some? && st.memUsedPct >= eff.memPct.value.rule.threshold
    case DiskPct => && st.hasRecentStats && eff.diskPct.Some?
                    && (eff.diskPct.value.rule.mounts == [] || extra in eff.diskPct.value.rule.mounts)
                    && exists d :: d in st.disks && d.mount == extra && d.total > 0
                         && d.used as real / d.total as real * 100.0 >= eff.diskPct.value.rule.threshold
    case ServiceDown => && st.servicesFresh && eff.serviceDown.Some? && extra in eff.serviceDown.value.rule.services
                        && (extra !in st.services || st.services[extra] != "running")
  }

  /** The data the rule type needs was present, so its absence of findings means something. */
  predicate Assessed(eff: Effective, st: DeviceState, rt: RuleType) {
    match rt
    case Offline => eff.offline.Some?
    case CpuPct => st.hasRecentStats && eff.cpuPct.Some?
    case MemPct => st.hasRecentStats && eff.memPct.Some?
    case DiskPct => st.hasRecentStats && eff.diskPct.Some?
    case ServiceDown => st.servicesFresh && eff.serviceDown.Some?
  }

  /** worker.ruleConfigured. */
  predicate Configured(eff: Effective, rt: RuleType) {
    eff.Get(rt).Some?
  }

  lemma HoldingIsAssessed(now: int, eff: Effective, st: DeviceState, rt: RuleType, extra: string)
    ensures Holds(now, eff, st, rt, extra) ==> Assessed(eff, st, rt)
    ensures Assessed(eff, st, rt) ==> Configured(eff, rt)
  {
  }

  // ---------------------------------------------------------------------
  // Evaluate

  function Found<T>(src: Sourced<T>, device: Uuid, rt: RuleType, extra: string, severity: string): Finding {
    Finding(src.policy, src.channels, rt, extra, DedupKey(device, rt, extra), SeverityOr(severity))
  }

  function DiskFindings(src: Sourced<DiskRule>, device: Uuid, disks: seq<DiskUsage>): seq<Finding> {
    if disks == [] then []
    else
      var d := disks[|disks| - 1];
      DiskFindings(src, device, disks[..|disks| - 1]) +
      (if FullDisk(src.rule, d) then [Found(src, device, DiskPct, d.mount, src.rule.severity)] else [])
  }

  function ServiceFindings(src: Sourced<ServiceRule>, device: Uuid, names: seq<string>, services: map<string, string>): seq<Finding> {
    if names == [] then []
    else
      var name := names[|names| - 1];
      ServiceFindings(src, device, names[..|names| - 1], services) +
      (if IsDown(services, name) then [Found(src, device, ServiceDown, name, src.rule.severity)] else [])
  }

  function OfflineFindings(now: int, eff: Effective, st: DeviceState): seq<Finding> {
    if eff.offline.Some? && OfflineNow(now, eff.offline.value.rule, st.lastSeen)
    then [Found(eff.offline.value, st.device, Offline, "", eff.offline.value.rule.severity)] else []
  }

  function PctFindings(src: Option<Sourced<ThresholdRule>>, rt: RuleType, value: real, st: DeviceState): seq<Finding> {
    if st.hasRecentStats && src.Some? && value >= src.value.rule.threshold
    then [Found(src.value, st.device, rt, "", src.value.rule.severity)] else []
  }

  function DiskPart(eff: Effective, st: DeviceState): seq<Finding> {
    if st.hasRecentStats && eff.diskPct.Some? then DiskFindings(eff.diskPct.value, st.device, st.disks) else []
  }

  function ServicePart(eff: Effective, st: DeviceState): seq<Finding> {
    if st.servicesFresh && eff.serviceDown.Some?
    then ServiceFindings(eff.serviceDown.value, st.device, eff.serviceDown.value.rule.services, st.services) else []
  }

  /** The findings for one rule type. */
  function Part(now: int, eff: Effective, st: DeviceState, rt: RuleType): seq<Finding> {
    match rt
    case Offline => OfflineFindings(now, eff, st)
    case CpuPct => PctFindings(eff.cpuPct, CpuPct, st.avgCpuPct, st)
    case MemPct => PctFindings(eff.memPct, MemPct, st.memUsedPct, st)
    case DiskPct => DiskPart(eff, st)
    case ServiceDown => ServicePart(eff, st)
  }

  /** The findings of one evaluation, in the order Evaluate appends them. */
  function Findings(now: int, eff: Effective, st: DeviceState): seq<Finding> {
    Part(now, eff, st, Offline) + Part(now, eff, st, CpuPct) + Part(now, eff, st, MemPct)
    + Part(now, eff, st, DiskPct) + Part(now, eff, st, ServiceDown)
  }

  /** The rule types assessed, listed as Evaluate appends them. */
  function Listed(rt: RuleType, assessed: bool): seq<RuleType> {
    if assessed then [rt] else []
  }

  /** alerts.Evaluate; a device with stale data is neither found at fault nor cleared. */
  method Evaluate(now: int, eff: Effective, st: DeviceState) returns (findings: seq<Finding>, evaluated: seq<RuleType>)
    ensures findings == Findings(now, eff, st)
    ensures forall rt :: rt in evaluated <==> Assessed(eff, st, rt)
  {
    var offline, e0 := CheckOffline(now, eff, st);
    var cpu, e1 := CheckPct(eff.cpuPct, CpuPct, st.avgCpuPct, st);
    var mem, e2 := CheckPct(eff.memPct, MemPct, st.memUsedPct, st);
    var disk, e3 := CheckDisks(eff, st);
    var down, e4 := CheckServices(eff, st);
    findings := offline + cpu + mem + disk + down;
    evaluated := e0 + e1 + e2 + e3 + e4;
    AssessedAreListed(eff, st);
  }

  lemma AssessedAreListed(eff: Effective, st: DeviceState)
    ensures forall rt :: Assessed(eff, st, rt) <==>
              rt in Listed(Offline, eff.offline.Some?) + Listed(CpuPct, st.hasRecentStats && eff.cpuPct.Some?)
                    + Listed(MemPct, st.hasRecentStats && eff.memPct.Some?) + Listed(DiskPct, st.hasRecentStats && eff.diskPct.Some?)
                    + Listed(ServiceDown, st.servicesFresh && eff.serviceDown.Some?)
  {
  }

  method CheckOffline(now: int, eff: Effective, st: DeviceState) returns (findings: seq<Finding>, evaluated: seq<RuleType>)
    ensures findings == OfflineFindings(now, eff, st)
    ensures evaluated == Listed(Offline, eff.offline.Some?)
  {
    findings, evaluated := [], [];
    if eff.offline.Some? {
      evaluated := [Offline];
      if st.lastSeen.Some? && now - st.lastSeen.value >= eff.offline.value.rule.afterS {
        findings := [Found(eff.offline.value, st.device, Offline, "", eff.offline.value.rule.severity)];
      }
    }
  }

  method CheckPct(src: Option<Sourced<ThresholdRule>>, rt: RuleType, value: real, st: DeviceState)
    returns (findings: seq<Finding>, evaluated: seq<RuleType>)
    ensures findings == PctFindings(src, rt, value, st)
    ensures evaluated == Listed(rt, st.hasRecentStats && src.Some?)
  {
    findings, evaluated := [], [];
    if st.hasRecentStats && src.Some? {
      evaluated := [rt];
      if value >= src.value.rule.threshold {
        findings := [Found(src.value, st.device, rt, "", src.value.rule.severity)];
      }
    }
  }

  method CheckDisks(eff: Effective, st: DeviceState) returns (findings: seq<Finding>, evaluated: seq<RuleType>)
    ensures findings == DiskPart(eff, st)
    ensures evaluated == Listed(DiskPct, st.hasRecentStats && eff.diskPct.Some?)
  {
    findings, evaluated := [], [];
    if st.hasRecentStats && eff.diskPct.Some? {
      evaluated := [DiskPct];
      findings := FullDisks(eff.diskPct.value, st.device, st.disks);
    }
  }

  method CheckServices(eff: Effective, st: DeviceState) returns (findings: seq<Finding>, evaluated: seq<RuleType>)
    ensures findings == ServicePart(eff, st)
    ensures evaluated == Listed(ServiceDown, st.servicesFresh && eff.serviceDown.Some?)
  {
    findings, evaluated := [], [];
    if eff.serviceDown.Some? && st.servicesFresh {
      evaluated := [ServiceDown];
      findings := DownServices(eff.serviceDown.value, st.device, st.services);
    }
  }

  method FullDisks(src: Sourced<DiskRule>, device: Uuid, disks: seq<DiskUsage>) returns (findings: seq<Finding>)
    ensures findings == DiskFindings(src, device, disks)
  {
    findings := [];
    var watched: set<string> := {};
    for k := 0 to |src.rule.mounts|
      invariant watched == set m | m in src.rule.mounts[..k]
    {
      watched := watched + {src.rule.mounts[k]};
    }
    assert src.rule.mounts[..|src.rule.mounts|] == src.rule.mounts;
    assert watched == {} <==> src.rule.mounts == [] by {
      if src.rule.mounts != [] {
        assert src.rule.mounts[0] in watched;
      }
    }
    for k := 0 to |disks|
      invariant findings == DiskFindings(src, device, disks[..k])
    {
      var d := disks[k];
      assert disks[..k + 1][..k] == disks[..k];
      if watched != {} && d.mount !in watched {
        continue;
      }
      if d.total <= 0 {
        continue;
      }
      var pct := d.used as real / d.total as real * 100.0;
      if pct >= src.rule.threshold {
        findings := findings + [Found(src, device, DiskPct, d.mount, src.rule.severity)];
      }
    }
    assert disks[..|disks|] == disks;
  }

  lemma ServiceFindingsExtend(src: Sourced<ServiceRule>, device: Uuid, names: seq<string>, services: map<string, string>, k: nat)
    requires k < |names|
    ensures ServiceFindings(src, device, names[..k + 1], services) == ServiceFindings(src, device, names[..k], services)
      + (if IsDown(services, names[k]) then [Found(src, device, ServiceDown, names[k], src.rule.severity)] else [])
  {
    assert names[..k + 1][..k] == names[..k];
  }

  method DownServices(src: Sourced<ServiceRule>, device: Uuid, services: map<string, string>) returns (findings: seq<Finding>)
    ensures findings == ServiceFindings(src, device, src.rule.services, services)
  {
    findings := [];
    var names := src.rule.services;
    for k := 0 to |names|
      invariant findings == ServiceFindings(src, device, names[..k], services)
    {
      ServiceFindingsExtend(src, device, names, services, k);
      var name := names[k];
      if name in services && services[name] == RUNNING {
        continue;
      }
      findings := findings + [Found(src, device, ServiceDown, name, src.rule.severity)];
    }
    assert names[..|names|] == names;
  }

  // ---------------------------------------------------------------------
  // The two descriptions agree

  /** The merged rule's own severity; rules that leave it out warn. */
  ghost predicate IsSeverityOf(severity: string, r: RuleBody) {
    match r
    case ThresholdBody(t) => severity == t.severity || (t.severity == "" && severity == "warning")
    case DiskBody(d) => severity == d.severity || (d.severity == "" && severity == "warning")
    case OfflineBody(o) => severity == o.severity || (o.severity == "" && severity == "warning")
    case ServiceBody(s) => severity == s.severity || (s.severity == "" && severity == "warning")
  }

  /** A finding carries the key of its condition and the attribution and severity of the merged rule. */
  ghost predicate WellFormed(f: Finding, eff: Effective, device: Uuid) {
    && f.key == DedupKey(device, f.rule, f.extra)
    && eff.Get(f.rule).Some?
    && f.policy == eff.Get(f.rule).value.policy && f.channels == eff.Get(f.rule).value.channels
    && f.severity != "" && IsSeverityOf(f.severity, eff.Get(f.rule).value.rule)
  }

  lemma {:induction false} DiskFindingsShape(src: Sourced<DiskRule>, device: Uuid, disks: seq<DiskUsage>)
    ensures forall f :: f in DiskFindings(src, device, disks) ==> f == Found(src, device, DiskPct, f.extra, src.rule.severity)
  {
    if disks != [] {
      DiskFindingsShape(src, device, disks[..|disks| - 1]);
    }
  }

  lemma {:induction false} DiskFindingsHold(src: Sourced<DiskRule>, device: Uuid, disks: seq<DiskUsage>, extra: string)
    ensures (exists f :: f in DiskFindings(src, device, disks) && f.extra == extra) <==>
            exists d :: d in disks && d.mount == extra && FullDisk(src.rule, d)
  {
    if disks != [] {
      var n := |disks| - 1;
      DiskFindingsHold(src, device, disks[..n], extra);
      var before, last := DiskFindings(src, device, disks[..n]), disks[n];
      assert disks == disks[..n] + [last];
      if FullDisk(src.rule, last) {
        assert DiskFindings(src, device, disks) == before + [Found(src, device, DiskPct, last.mount, src.rule.severity)];
        assert Found(src, device, DiskPct, last.mount, src.rule.severity).extra == last.mount;
      } else {
        assert DiskFindings(src, device, disks) == before;
      }
    }
  }

  lemma {:induction false} ServiceFindingsHold(src: Sourced<ServiceRule>, device: Uuid, names: seq<string>, services: map<string, string>, extra: string)
    ensures forall f :: f in ServiceFindings(src, device, names, services) ==>
              f == Found(src, device, ServiceDown, f.extra, src.rule.severity)
    ensures (exists f :: f in ServiceFindings(src, device, names, services) && f.extra == extra) <==>
            extra in names && IsDown(services, extra)
  {
    if names != [] {
      var n := |names| - 1;
      ServiceFindingsHold(src, device, names[..n], services, extra);
      var before, all := ServiceFindings(src, device, names[..n], services), ServiceFindings(src, device, names, services);
      assert names == names[..n] + [names[n]];
      if extra in names && IsDown(services, extra) {
        if extra in names[..n] {
          var f :| f in before && f.extra == extra;
          assert f in all;
        } else {
          assert Found(src, device, ServiceDown, extra, src.rule.severity) in all;
        }
      }
    }
  }

  lemma {:induction false} PartIsWhatHolds(now: int, eff: Effective, st: DeviceState, rt: RuleType, extra: string)
    ensures forall f :: f in Part(now, eff, st, rt) ==> f.rule == rt && WellFormed(f, eff, st.device)
    ensures (exists f :: f in Part(now, eff, st, rt) && f.extra == extra) <==> Holds(now, eff, st, rt, extra)
  {
    match rt
    case Offline =>
      assert Part(now, eff, st, rt) != [] ==> Part(now, eff, st, rt)[0] in Part(now, eff, st, rt);
    case CpuPct =>
      assert Part(now, eff, st, rt) != [] ==> Part(now, eff, st, rt)[0] in Part(now, eff, st, rt);
    case MemPct =>
      assert Part(now, eff, st, rt) != [] ==> Part(now, eff, st, rt)[0] in Part(now, eff, st, rt);
    case DiskPct =>
      if eff.diskPct.Some? {
        DiskFindingsShape(eff.diskPct.value, st.device, st.disks);
        DiskFindingsHold(eff.diskPct.value, st.device, st.disks, extra);
      }
    case ServiceDown =>
      if eff.serviceDown.Some? {
        ServiceFindingsHold(eff.serviceDown.value, st.device, eff.serviceDown.value.rule.services, st.services, extra);
      }
  }

  /** Evaluate finds a condition iff it holds, under the right key and policy. */
  lemma {:induction false} FindingsAreWhatHolds(now: int, eff: Effective, st: DeviceState, rt: RuleType, extra: string)
    ensures forall f :: f in Findings(now, eff, st) ==> WellFormed(f, eff, st.device)
    ensures (exists f :: f in Findings(now, eff, st) && f.rule == rt && f.extra == extra) <==> Holds(now, eff, st, rt, extra)
  {
    forall t {
      PartIsWhatHolds(now, eff, st, t, extra);
    }
    if Holds(now, eff, st, rt, extra) {
      var f :| f in Part(now, eff, st, rt) && f.extra == extra;
      assert f in Findings(now, eff, st);
    }
  }
}
