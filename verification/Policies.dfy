/**
 Monitoring-policy inheritance: the worker's typed merge (server/internal/alerts/rules.go,
 server/internal/worker/alerts.go:124-144) and the dashboard's independent merge over raw JSON
 (server/internal/api/inventory_handlers.go:106-160).

 Both are rank-by-rank overwrites.  Their common meaning is stated once, for any list of
 ranked values: `Wins` (declarative) and `Nearest` (top-down search).
 */
module Policies {
  import opened Wrappers
  import opened Identifiers
  import opened JsonNames

  type Id = Uuid

  // ---------------------------------------------------------------------
  // Ranked values

  /** A value offered at a scope rank; a list entry without a mark offers nothing. */
  datatype Mark<+V> = Mark(rank: int, value: V)

  type Marks<+V> = seq<Option<Mark<V>>>

  const MAX_SCOPE_RANK := 4

  predicate Offers<V>(marks: Marks<V>, i: int) {
    0 <= i < |marks| && marks[i].Some? && 0 <= marks[i].value.rank <= MAX_SCOPE_RANK
  }

  /** The declarative rule: highest rank, and the last listed among those of that rank. */
  ghost predicate Wins<V>(marks: Marks<V>, i: int) {
    && Offers(marks, i)
    && forall j :: Offers(marks, j) ==>
         marks[j].value.rank < marks[i].value.rank || (marks[j].value.rank == marks[i].value.rank && j <= i)
  }

  /** The last value listed with exactly this rank. */
  function LastAt<V>(marks: Marks<V>, rank: int): Option<V> {
    if marks == [] then None
    else
      var m := marks[|marks| - 1];
      if m.Some? && m.value.rank == rank then Some(m.value.value)
      else LastAt(marks[..|marks| - 1], rank)
  }

  /** Search from the most specific rank down. */
  function Nearest<V>(marks: Marks<V>, top: int): Option<V> {
    if top < 0 then None
    else match LastAt(marks, top)
         case Some(v) => Some(v)
         case None => Nearest(marks, top - 1)
  }

  lemma {:induction false} LastAtIsLast<V>(marks: Marks<V>, rank: int) returns (i: nat)
    ensures LastAt(marks, rank).None? <==>
            forall j :: 0 <= j < |marks| ==> marks[j].None? || marks[j].value.rank != rank
    ensures LastAt(marks, rank).Some? ==>
              && i < |marks| && marks[i] == Some(Mark(rank, LastAt(marks, rank).value))
              && forall j :: i < j < |marks| ==> marks[j].None? || marks[j].value.rank != rank
  {
    i := 0;
    if marks != [] {
      var n := |marks| - 1;
      if marks[n].Some? && marks[n].value.rank == rank {
        i := n;
      } else {
        i := LastAtIsLast(marks[..n], rank);
        assert forall j :: 0 <= j < n ==> marks[..n][j] == marks[j];
      }
    }
  }

  /** The top-down search finds a winner among the ranks up to `top`, or there is none. */
  lemma {:induction false} NearestUpTo<V>(marks: Marks<V>, top: int) returns (i: nat)
    requires top <= MAX_SCOPE_RANK
    ensures Nearest(marks, top).None? ==> forall j :: Offers(marks, j) ==> marks[j].value.rank > top
    ensures Nearest(marks, top).Some? ==>
              && Offers(marks, i) && marks[i].value.rank <= top && marks[i].value.value == Nearest(marks, top).value
              && forall j :: Offers(marks, j) && marks[j].value.rank <= top ==>
                   marks[j].value.rank < marks[i].value.rank || (marks[j].value.rank == marks[i].value.rank && j <= i)
    decreases if top < 0 then 0 else top + 1
  {
    i := 0;
    if top >= 0 {
      i := LastAtIsLast(marks, top);
      if LastAt(marks, top).None? {
        i := NearestUpTo(marks, top - 1);
      }
    }
  }

  /** The search and the declarative rule agree, both ways. */
  lemma {:induction false} NearestIsWinner<V>(marks: Marks<V>) returns (i: nat)
    ensures Nearest(marks, MAX_SCOPE_RANK).None? <==> forall j :: !Offers(marks, j)
    ensures Nearest(marks, MAX_SCOPE_RANK).Some? ==> Wins(marks, i) && marks[i].value.value == Nearest(marks, MAX_SCOPE_RANK).value
    ensures forall j :: Wins(marks, j) ==> Nearest(marks, MAX_SCOPE_RANK) == Some(marks[j].value.value)
  {
    i := NearestUpTo(marks, MAX_SCOPE_RANK);
  }

  /** Positions of `q` listed as positions of `p`: a rearrangement that keeps same-rank order. */
  ghost predicate StableReorder<V(!new)>(p: Marks<V>, q: Marks<V>, at: seq<nat>) {
    && |at| == |q| == |p|
    && (forall i :: 0 <= i < |at| ==> at[i] < |p| && q[i] == p[at[i]])
    && (forall k :: 0 <= k < |p| ==> k in at)
    && (forall i, j :: 0 <= i < j < |at| && q[i].Some? && q[j].Some? && q[i].value.rank == q[j].value.rank ==> at[i] < at[j])
  }

  /** Only the relative order of policies of one rank matters. */
  lemma {:induction false} ReorderKeepsNearest<V(!new)>(p: Marks<V>, q: Marks<V>, at: seq<nat>)
    requires StableReorder(p, q, at)
    ensures Nearest(p, MAX_SCOPE_RANK) == Nearest(q, MAX_SCOPE_RANK)
  {
    var i := NearestIsWinner(q);
    var k := NearestIsWinner(p);
    if Nearest(p, MAX_SCOPE_RANK).Some? {
      assert k in at;
      var k' :| 0 <= k' < |at| && at[k'] == k;
      assert Offers(q, k');
    }
    if Nearest(q, MAX_SCOPE_RANK).Some? {
      assert Offers(p, at[i]);
      forall j | Offers(p, j)
        ensures p[j].value.rank < p[at[i]].value.rank || (p[j].value.rank == p[at[i]].value.rank && j <= at[i])
      {
        assert j in at;
        var i' :| 0 <= i' < |at| && at[i'] == j;
        assert Offers(q, i');
      }
      assert Wins(p, at[i]);
    }
  }

  // ---------------------------------------------------------------------
  // Rules and policies

  datatype RuleType = CpuPct | MemPct | DiskPct | Offline | ServiceDown

  /** The values of alerts.rule_type, and the json names of the rules. */
  function RuleName(rt: RuleType): (s: string)
    ensures ':' !in s && s != ""
  {
    match rt
    case CpuPct => "cpu_pct"
    case MemPct => "mem_pct"
    case DiskPct => "disk_pct"
    case Offline => "offline"
    case ServiceDown => "service_down"
  }

  datatype ThresholdRule = ThresholdRule(threshold: real, severity: string)
  datatype DiskRule = DiskRule(threshold: real, mounts: seq<string>, severity: string)
  datatype OfflineRule = OfflineRule(afterS: int, severity: string)
  datatype ServiceRule = ServiceRule(services: seq<string>, severity: string)

  /** One rule of any type, for statements that range over the five rule types. */
  datatype RuleBody =
    | ThresholdBody(threshold: ThresholdRule)
    | DiskBody(disk: DiskRule)
    | OfflineBody(offline: OfflineRule)
    | ServiceBody(service: ServiceRule)

  datatype Rules = Rules(
    cpuPct: Option<ThresholdRule>,
    memPct: Option<ThresholdRule>,
    diskPct: Option<DiskRule>,
    offline: Option<OfflineRule>,
    serviceDown: Option<ServiceRule>)
  {
    function Get(rt: RuleType): Option<RuleBody> {
      match rt
      case CpuPct => if cpuPct.Some? then Some(ThresholdBody(cpuPct.value)) else None
      case MemPct => if memPct.Some? then Some(ThresholdBody(memPct.value)) else None
      case DiskPct => if diskPct.Some? then Some(DiskBody(diskPct.value)) else None
      case Offline => if offline.Some? then Some(OfflineBody(offline.value)) else None
      case ServiceDown => if serviceDown.Some? then Some(ServiceBody(serviceDown.value)) else None
    }
  }

  datatype ScopedPolicy = ScopedPolicy(id: Id, rank: int, rules: Rules, channels: seq<Id>)

  /** A merged rule and the policy it came from. */
  datatype Sourced<+T> = Sourced(rule: T, policy: Id, channels: seq<Id>)

  datatype Effective = Effective(
    cpuPct: Option<Sourced<ThresholdRule>>,
    memPct: Option<Sourced<ThresholdRule>>,
    diskPct: Option<Sourced<DiskRule>>,
    offline: Option<Sourced<OfflineRule>>,
    serviceDown: Option<Sourced<ServiceRule>>)
  {
    function Get(rt: RuleType): Option<Sourced<RuleBody>> {
      match rt
      case CpuPct => (match cpuPct case None => None case Some(s) => Some(Sourced(ThresholdBody(s.rule), s.policy, s.channels)))
      case MemPct => (match memPct case None => None case Some(s) => Some(Sourced(ThresholdBody(s.rule), s.policy, s.channels)))
      case DiskPct => (match diskPct case None => None case Some(s) => Some(Sourced(DiskBody(s.rule), s.policy, s.channels)))
      case Offline => (match offline case None => None case Some(s) => Some(Sourced(OfflineBody(s.rule), s.policy, s.channels)))
      case ServiceDown => (match serviceDown case None => None case Some(s) => Some(Sourced(ServiceBody(s.rule), s.policy, s.channels)))
    }
  }

  const NO_RULES := Effective(None, None, None, None, None)

  /** The body of Merge's inner loop: the rules `p` defines overwrite what is there. */
  function Overlay(eff: Effective, p: ScopedPolicy): Effective {
    Effective(
      if p.rules.cpuPct.Some? then Some(Sourced(p.rules.cpuPct.value, p.id, p.channels)) else eff.cpuPct,
      if p.rules.memPct.Some? then Some(Sourced(p.rules.memPct.value, p.id, p.channels)) else eff.memPct,
      if p.rules.diskPct.Some? then Some(Sourced(p.rules.diskPct.value, p.id, p.channels)) else eff.diskPct,
      if p.rules.offline.Some? then Some(Sourced(p.rules.offline.value, p.id, p.channels)) else eff.offline,
      if p.rules.serviceDown.Some? then Some(Sourced(p.rules.serviceDown.value, p.id, p.channels)) else eff.serviceDown)
  }

  /** What `p` offers for one rule type. */
  function MarkOf(p: ScopedPolicy, rt: RuleType): Option<Mark<Sourced<RuleBody>>> {
    match p.rules.Get(rt)
    case None => None
    case Some(body) => Some(Mark(p.rank, Sourced(body, p.id, p.channels)))
  }

  function MarksOf(policies: seq<ScopedPolicy>, rt: RuleType): Marks<Sourced<RuleBody>> {
    seq(|policies|, i requires 0 <= i < |policies| => MarkOf(policies[i], rt))
  }

  /** The result of inheritance, field by field, as the declarative rule gives it. */
  ghost predicate IsMerge(policies: seq<ScopedPolicy>, eff: Effective) {
    forall rt :: eff.Get(rt) == Nearest(MarksOf(policies, rt), MAX_SCOPE_RANK)
  }

  /** A field as it stands after overwriting `base` by the rank-`rank` values of `marks`. */
  function OverBy<V>(base: Option<V>, marks: Marks<V>, rank: int): Option<V> {
    match LastAt(marks, rank) case Some(v) => Some(v) case None => base
  }

  lemma MarksOfPrefix(policies: seq<ScopedPolicy>, k: nat, rt: RuleType)
    requires k < |policies|
    ensures MarksOf(policies[..k + 1], rt) == MarksOf(policies[..k], rt) + [MarkOf(policies[k], rt)]
  {
  }

  /** The merge of the ranks up to `top`. */
  ghost predicate MergedUpTo(policies: seq<ScopedPolicy>, eff: Effective, top: int) {
    forall rt :: eff.Get(rt) == Nearest(MarksOf(policies, rt), top)
  }

  /** `base` overwritten by the policies of one rank. */
  ghost predicate Overlaid(base: Effective, policies: seq<ScopedPolicy>, rank: int, eff: Effective) {
    forall rt :: eff.Get(rt) == OverBy(base.Get(rt), MarksOf(policies, rt), rank)
  }

  lemma OverlayOne(base: Effective, policies: seq<ScopedPolicy>, k: nat, rank: int, eff: Effective, rt: RuleType)
    requires k < |policies| && eff.Get(rt) == OverBy(base.Get(rt), MarksOf(policies[..k], rt), rank)
    ensures (if policies[k].rank == rank then Overlay(eff, policies[k]) else eff).Get(rt)
         == OverBy(base.Get(rt), MarksOf(policies[..k + 1], rt), rank)
  {
    MarksOfPrefix(policies, k, rt);
    var m := MarksOf(policies[..k + 1], rt);
    assert m[..|m| - 1] == MarksOf(policies[..k], rt);
  }

  lemma OverlayOneMore(base: Effective, policies: seq<ScopedPolicy>, k: nat, rank: int, eff: Effective)
    requires k < |policies| && Overlaid(base, policies[..k], rank, eff)
    ensures Overlaid(base, policies[..k + 1], rank, if policies[k].rank == rank then Overlay(eff, policies[k]) else eff)
  {
    forall rt
      ensures (if policies[k].rank == rank then Overlay(eff, policies[k]) else eff).Get(rt)
           == OverBy(base.Get(rt), MarksOf(policies[..k + 1], rt), rank)
    {
      OverlayOne(base, policies, k, rank, eff, rt);
    }
  }

  /**
   alerts.Merge.  The loops overwrite from the broadest rank to the most specific; the result
   is the declarative winner for each of the five rule types.
   */
  method Merge(policies: seq<ScopedPolicy>) returns (eff: Effective)
    ensures IsMerge(policies, eff)
  {
    eff := NO_RULES;
    assert MergedUpTo(policies, eff, -1);
    for rank := 0 to MAX_SCOPE_RANK + 1
      invariant MergedUpTo(policies, eff, rank - 1)
    {
      eff := MergeRank(policies, rank, eff);
    }
  }

  /** The inner loop: one rank. */
  method MergeRank(policies: seq<ScopedPolicy>, rank: int, base: Effective) returns (eff: Effective)
    requires 0 <= rank && MergedUpTo(policies, base, rank - 1)
    ensures MergedUpTo(policies, eff, rank)
  {
    eff := base;
    for k := 0 to |policies|
      invariant Overlaid(base, policies[..k], rank, eff)
    {
      OverlayOneMore(base, policies, k, rank, eff);
      if policies[k].rank == rank {
        eff := Overlay(eff, policies[k]);
      }
    }
    assert policies[..|policies|] == policies;
  }

  /** The merge determines every field, so a rearrangement within the allowed orders changes nothing. */
  lemma {:induction false} MergeIgnoresCrossRankOrder(p: seq<ScopedPolicy>, q: seq<ScopedPolicy>, at: seq<nat>, a: Effective, b: Effective)
    requires IsMerge(p, a) && IsMerge(q, b)
    requires |at| == |q| == |p|
    requires forall i :: 0 <= i < |at| ==> at[i] < |p| && q[i] == p[at[i]]
    requires forall k :: 0 <= k < |p| ==> k in at
    requires forall i, j :: 0 <= i < j < |at| && q[i].rank == q[j].rank ==> at[i] < at[j]
    ensures a == b
  {
    forall rt
      ensures a.Get(rt) == b.Get(rt)
    {
      ReorderKeepsNearest(MarksOf(p, rt), MarksOf(q, rt), at);
    }
    FieldsDetermine(a, b);
  }

  lemma FieldsDetermine(a: Effective, b: Effective)
    requires forall rt :: a.Get(rt) == b.Get(rt)
    ensures a == b
  {
    assert a.Get(CpuPct) == b.Get(CpuPct) && a.Get(MemPct) == b.Get(MemPct) && a.Get(DiskPct) == b.Get(DiskPct);
    assert a.Get(Offline) == b.Get(Offline) && a.Get(ServiceDown) == b.Get(ServiceDown);
  }

  // ---------------------------------------------------------------------
  // Stored policies

  datatype ScopeType = TenantScope | CustomerScope | SiteScope | TagScope | DeviceScope | OtherScope(name: string)

  /** alerts.ScopeRank and the dashboard's scopeRank, which are the same table. */
  function ScopeRank(t: ScopeType): int {
    match t
    case TenantScope => 0
    case CustomerScope => 1
    case SiteScope => 2
    case TagScope => 3
    case DeviceScope => 4
    case OtherScope(_) => -1
  }

  /** One field of a stored rule: left out, given, or of a JSON type the Go field cannot take. */
  datatype Part<+T> = Missing | Given(value: T) | WrongType

  /** The fields any rule type may use; a JSON null counts as left out, for a list as an empty one. */
  datatype Fields = Fields(
    threshold: Part<real>, mounts: Part<seq<string>>, afterS: Part<int>,
    services: Part<seq<string>>, severity: Part<string>)

  /** A value in the stored rules object: explicit null, an object, or something that is neither. */
  datatype Raw = Null | Rule(fields: Fields) | Scalar

  datatype Entry = Entry(key: string, raw: Raw)

  /** The stored object with its keys in stored order; a stored null is the empty object. */
  datatype RawRules = NotAnObject | Object(entries: seq<Entry>)

  datatype Policy = Policy(
    id: Id, name: string,
    scopeType: ScopeType, scopeId: Option<Id>, scopeTag: Option<string>,
    enabled: bool, rules: RawRules, channels: seq<Id>)

  datatype DeviceScopeOf = Placement(device: Id, site: Id, customer: Id, tags: seq<string>)

  /** Policy.AppliesTo. */
  predicate AppliesTo(p: Policy, d: DeviceScopeOf) {
    match p.scopeType
    case TenantScope => true
    case CustomerScope => p.scopeId == Some(d.customer)
    case SiteScope => p.scopeId == Some(d.site)
    case DeviceScope => p.scopeId == Some(d.device)
    case TagScope => p.scopeTag.Some? && p.scopeTag.value in d.tags
    case OtherScope(_) => false
  }

  predicate InForce(p: Policy, d: DeviceScopeOf) {
    p.enabled && AppliesTo(p, d)
  }

  // ---------------------------------------------------------------------
  // encoding/json into alerts.Rules

  /** The decoder takes the key for the rule's name: exactly spelled, or in any other case. */
  predicate Spells(key: string, rt: RuleType) {
    Matches(key, RuleName(rt))
  }

  predicate Acceptable(rt: RuleType, raw: Raw) {
    raw.Null? || (raw.Rule? && !raw.fields.severity.WrongType? &&
                  match rt
                  case CpuPct => !raw.fields.threshold.WrongType?
                  case MemPct => !raw.fields.threshold.WrongType?
                  case DiskPct => !raw.fields.threshold.WrongType? && !raw.fields.mounts.WrongType?
                  case Offline => !raw.fields.afterS.WrongType?
                  case ServiceDown => !raw.fields.services.WrongType?)
  }

  predicate Fits(rt: RuleType, body: RuleBody) {
    match rt
    case CpuPct => body.ThresholdBody?
    case MemPct => body.ThresholdBody?
    case DiskPct => body.DiskBody?
    case Offline => body.OfflineBody?
    case ServiceDown => body.ServiceBody?
  }

  function Or<T>(p: Part<T>, zero: T): T {
    if p.Given? then p.value else zero
  }

  /** The rule a set of fields amounts to; what is left out is the zero value. */
  function BodyOf(rt: RuleType, f: Fields): (body: RuleBody)
    ensures Fits(rt, body)
  {
    match rt
    case CpuPct => ThresholdBody(ThresholdRule(Or(f.threshold, 0.0), Or(f.severity, "")))
    case MemPct => ThresholdBody(ThresholdRule(Or(f.threshold, 0.0), Or(f.severity, "")))
    case DiskPct => DiskBody(DiskRule(Or(f.threshold, 0.0), Or(f.mounts, []), Or(f.severity, "")))
    case Offline => OfflineBody(OfflineRule(Or(f.afterS, 0), Or(f.severity, "")))
    case ServiceDown => ServiceBody(ServiceRule(Or(f.services, []), Or(f.severity, "")))
  }

  function Later<T>(first: Part<T>, second: Part<T>): Part<T> {
    if second.Missing? then first else second
  }

  /** A second object decoded into the same rule overwrites the fields it gives and no others. */
  function Overwrite(f: Fields, g: Fields): Fields {
    Fields(Later(f.threshold, g.threshold), Later(f.mounts, g.mounts), Later(f.afterS, g.afterS),
           Later(f.services, g.services), Later(f.severity, g.severity))
  }

  /** The fields decoded for `rt` from the entries in stored order; a null sets the rule back to none. */
  function Gathered(entries: seq<Entry>, rt: RuleType): Option<Fields> {
    if entries == [] then None
    else
      var before := Gathered(entries[..|entries| - 1], rt);
      var e := entries[|entries| - 1];
      if !Spells(e.key, rt) || e.raw.Scalar? then before
      else if e.raw.Null? then None
      else if before.Some? then Some(Overwrite(before.value, e.raw.fields))
      else Some(e.raw.fields)
  }

  predicate Decodable(raw: RawRules) {
    raw.Object? &&
    forall i, rt :: 0 <= i < |raw.entries| && Spells(raw.entries[i].key, rt) ==> Acceptable(rt, raw.entries[i].raw)
  }

  /** The typed reading of one rule: no key for it and an explicit null are both "no rule". */
  function Reading(raw: RawRules, rt: RuleType): (r: Option<RuleBody>)
    requires raw.Object?
    ensures r.Some? ==> Fits(rt, r.value)
  {
    match Gathered(raw.entries, rt)
    case None => None
    case Some(f) => Some(BodyOf(rt, f))
  }

  function ThresholdIn(b: Option<RuleBody>): Option<ThresholdRule> {
    if b.Some? && b.value.ThresholdBody? then Some(b.value.threshold) else None
  }

  function DiskIn(b: Option<RuleBody>): Option<DiskRule> {
    if b.Some? && b.value.DiskBody? then Some(b.value.disk) else None
  }

  function OfflineIn(b: Option<RuleBody>): Option<OfflineRule> {
    if b.Some? && b.value.OfflineBody? then Some(b.value.offline) else None
  }

  function ServiceIn(b: Option<RuleBody>): Option<ServiceRule> {
    if b.Some? && b.value.ServiceBody? then Some(b.value.service) else None
  }

  /** The five readings as the Go struct. */
  function Typed(raw: RawRules): Rules
    requires raw.Object?
  {
    Rules(ThresholdIn(Reading(raw, CpuPct)), ThresholdIn(Reading(raw, MemPct)), DiskIn(Reading(raw, DiskPct)),
          OfflineIn(Reading(raw, Offline)), ServiceIn(Reading(raw, ServiceDown)))
  }

  lemma TypedIsReading(raw: RawRules, rt: RuleType)
    requires raw.Object?
    ensures Typed(raw).Get(rt) == Reading(raw, rt)
  {
    assert Reading(raw, rt).Some? ==> Fits(rt, Reading(raw, rt).value);
  }

  /** json.Unmarshal into alerts.Rules: one bad field fails the whole policy. */
  function Decode(raw: RawRules): (r: Option<Rules>)
    ensures r.Some? <==> Decodable(raw)
  {
    if Decodable(raw) then Some(Typed(raw)) else None
  }

  /** The entry is a null for the rule. */
  ghost predicate Clears(e: Entry, rt: RuleType) {
    Spells(e.key, rt) && e.raw == Null
  }

  /** The entry is an object for the rule. */
  ghost predicate Sets(e: Entry, rt: RuleType) {
    Spells(e.key, rt) && e.raw.Rule?
  }

  /** Entry `n` is decoded into the rule and no null for it comes later. */
  ghost predicate LiveAt(entries: seq<Entry>, rt: RuleType, n: int) {
    0 <= n < |entries| && Sets(entries[n], rt) && forall m :: n < m < |entries| ==> !Clears(entries[m], rt)
  }

  /** Entry `n` gives the field this value, and no such entry after it gives it one. */
  ghost predicate GivesLast<T(!new)>(entries: seq<Entry>, rt: RuleType, field: Fields -> Part<T>, v: Part<T>, n: int) {
    && LiveAt(entries, rt, n) && field(entries[n].raw.fields) == v
    && forall m :: n < m && LiveAt(entries, rt, m) ==> field(entries[m].raw.fields) == Missing
  }

  /** `v` is what the last of those entries to give the field at all gives; if none does, it is left out. */
  ghost predicate LastGivenIs<T(!new)>(entries: seq<Entry>, rt: RuleType, field: Fields -> Part<T>, v: Part<T>) {
    || (v == Missing && forall n :: LiveAt(entries, rt, n) ==> field(entries[n].raw.fields) == Missing)
    || (v != Missing && exists n :: GivesLast(entries, rt, field, v, n))
  }

  lemma LiveExtends(entries: seq<Entry>, rt: RuleType, n: int)
    requires entries != [] && n < |entries| - 1
    ensures LiveAt(entries, rt, n) <==> LiveAt(entries[..|entries| - 1], rt, n) && !Clears(entries[|entries| - 1], rt)
  {
    var before := entries[..|entries| - 1];
    assert forall m :: 0 <= m < |before| ==> Clears(before[m], rt) == Clears(entries[m], rt);
  }

  lemma {:induction false} GatheredIffLive(entries: seq<Entry>, rt: RuleType)
    ensures Gathered(entries, rt).Some? <==> exists n :: LiveAt(entries, rt, n)
  {
    if entries != [] {
      var last := |entries| - 1;
      GatheredIffLive(entries[..last], rt);
      forall n | n < last
        ensures LiveAt(entries, rt, n) <==> LiveAt(entries[..last], rt, n) && !Clears(entries[last], rt)
      {
        LiveExtends(entries, rt, n);
      }
      assert LiveAt(entries, rt, last) <==> Sets(entries[last], rt);
    }
  }

  lemma {:induction false} GatheredField<T(!new)>(entries: seq<Entry>, rt: RuleType, field: Fields -> Part<T>)
    requires forall f, g :: field(Overwrite(f, g)) == if field(g) == Missing then field(f) else field(g)
    ensures Gathered(entries, rt).Some? ==> LastGivenIs(entries, rt, field, field(Gathered(entries, rt).value))
  {
    if entries != [] && Gathered(entries, rt).Some? {
      var last := |entries| - 1;
      GatheredField(entries[..last], rt, field);
      GatheredIffLive(entries[..last], rt);
      forall n | n < last
        ensures LiveAt(entries, rt, n) <==> LiveAt(entries[..last], rt, n) && !Clears(entries[last], rt)
      {
        LiveExtends(entries, rt, n);
      }
      assert LiveAt(entries, rt, last) <==> Sets(entries[last], rt);
      LastGivenExtends(entries, rt, field);
    }
  }

  lemma LastGivenExtends<T(!new)>(entries: seq<Entry>, rt: RuleType, field: Fields -> Part<T>)
    requires entries != [] && Gathered(entries, rt).Some?
    requires forall f, g :: field(Overwrite(f, g)) == if field(g) == Missing then field(f) else field(g)
    requires var before := entries[..|entries| - 1];
      && (Gathered(before, rt).Some? ==> LastGivenIs(before, rt, field, field(Gathered(before, rt).value)))
      && (Gathered(before, rt).None? ==> forall n :: !LiveAt(before, rt, n))
    requires forall n :: n < |entries| - 1 ==>
               (LiveAt(entries, rt, n) <==> LiveAt(entries[..|entries| - 1], rt, n) && !Clears(entries[|entries| - 1], rt))
    requires LiveAt(entries, rt, |entries| - 1) <==> Sets(entries[|entries| - 1], rt)
    ensures LastGivenIs(entries, rt, field, field(Gathered(entries, rt).value))
  {
    var last := |entries| - 1;
    var before := entries[..last];
    var v := field(Gathered(entries, rt).value);
    if LiveAt(entries, rt, last) && field(entries[last].raw.fields) != Missing {
      assert GivesLast(entries, rt, field, v, last);
    } else if Gathered(before, rt).Some? && v != Missing {
      var n :| GivesLast(before, rt, field, v, n);
      assert GivesLast(entries, rt, field, v, n);
    }
  }

  /**
   However a rule's key is spelled and however often it stands: it is none iff no object follows its
   last null, and each of its fields is the last one given by those objects.
   */
  lemma SpellingsMerge(entries: seq<Entry>, rt: RuleType)
    ensures Gathered(entries, rt).Some? <==> exists n :: LiveAt(entries, rt, n)
    ensures Gathered(entries, rt).Some? ==>
      var f := Gathered(entries, rt).value;
      && LastGivenIs(entries, rt, (x: Fields) => x.threshold, f.threshold)
      && LastGivenIs(entries, rt, (x: Fields) => x.mounts, f.mounts)
      && LastGivenIs(entries, rt, (x: Fields) => x.afterS, f.afterS)
      && LastGivenIs(entries, rt, (x: Fields) => x.services, f.services)
      && LastGivenIs(entries, rt, (x: Fields) => x.severity, f.severity)
  {
    GatheredIffLive(entries, rt);
    GatheredField(entries, rt, (x: Fields) => x.threshold);
    GatheredField(entries, rt, (x: Fields) => x.mounts);
    GatheredField(entries, rt, (x: Fields) => x.afterS);
    GatheredField(entries, rt, (x: Fields) => x.services);
    GatheredField(entries, rt, (x: Fields) => x.severity);
  }

  /** The stored entry does not spoil the policy: a null, or an object whose fields have the rule's types. */
  ghost predicate EntryFits(e: Entry) {
    && (Matches(e.key, "cpu_pct") || Matches(e.key, "mem_pct") || Matches(e.key, "disk_pct")
        || Matches(e.key, "offline") || Matches(e.key, "service_down") ==>
          e.raw != Scalar && (e.raw.Rule? ==> e.raw.fields.severity != WrongType))
    && (e.raw.Rule? && (Matches(e.key, "cpu_pct") || Matches(e.key, "mem_pct") || Matches(e.key, "disk_pct")) ==>
          e.raw.fields.threshold != WrongType)
    && (e.raw.Rule? && Matches(e.key, "disk_pct") ==> e.raw.fields.mounts != WrongType)
    && (e.raw.Rule? && Matches(e.key, "offline") ==> e.raw.fields.afterS != WrongType)
    && (e.raw.Rule? && Matches(e.key, "service_down") ==> e.raw.fields.services != WrongType)
  }

  /** Exactly which stored objects decode. */
  lemma DecodesIff(raw: RawRules)
    ensures Decode(raw).Some? <==> raw.Object? && forall i :: 0 <= i < |raw.entries| ==> EntryFits(raw.entries[i])
  {
    if raw.Object? {
      forall i | 0 <= i < |raw.entries|
        ensures EntryFits(raw.entries[i]) <==> forall rt :: Spells(raw.entries[i].key, rt) ==> Acceptable(rt, raw.entries[i].raw)
      {
        FitsAll(raw.entries[i]);
      }
    }
  }

  lemma FitsAll(e: Entry)
    ensures EntryFits(e) <==> forall rt :: Spells(e.key, rt) ==> Acceptable(rt, e.raw)
  {
    assert Spells(e.key, CpuPct) == Matches(e.key, "cpu_pct") && Spells(e.key, MemPct) == Matches(e.key, "mem_pct");
    assert Spells(e.key, DiskPct) == Matches(e.key, "disk_pct") && Spells(e.key, Offline) == Matches(e.key, "offline");
    assert Spells(e.key, ServiceDown) == Matches(e.key, "service_down");
  }

  /** A field the encoder leaves out when it is empty. */
  function Unless<T(==)>(empty: T, v: T): Part<T> {
    if v == empty then Missing else Given(v)
  }

  function EncodeThreshold(r: ThresholdRule): Raw {
    Rule(Fields(Given(r.threshold), Missing, Missing, Missing, Unless("", r.severity)))
  }

  function EncodeDisk(r: DiskRule): Raw {
    Rule(Fields(Given(r.threshold), Unless([], r.mounts), Missing, Missing, Unless("", r.severity)))
  }

  function EncodeOffline(r: OfflineRule): Raw {
    Rule(Fields(Missing, Missing, Given(r.afterS), Missing, Unless("", r.severity)))
  }

  function EncodeService(r: ServiceRule): Raw {
    Rule(Fields(Missing, Missing, Missing, Given(r.services), Unless("", r.severity)))
  }

  function OneEntry(key: string, raw: Option<Raw>): seq<Entry> {
    if raw.Some? then [Entry(key, raw.value)] else []
  }

  /** The encoding of one rule, if there is one. */
  function EncodePart(r: Rules, rt: RuleType): Option<Raw> {
    match rt
    case CpuPct => if r.cpuPct.Some? then Some(EncodeThreshold(r.cpuPct.value)) else None
    case MemPct => if r.memPct.Some? then Some(EncodeThreshold(r.memPct.value)) else None
    case DiskPct => if r.diskPct.Some? then Some(EncodeDisk(r.diskPct.value)) else None
    case Offline => if r.offline.Some? then Some(EncodeOffline(r.offline.value)) else None
    case ServiceDown => if r.serviceDown.Some? then Some(EncodeService(r.serviceDown.value)) else None
  }

  /** json.Marshal of alerts.Rules. */
  function EncodeRules(r: Rules): seq<Entry> {
    OneEntry("cpu_pct", EncodePart(r, CpuPct)) + OneEntry("mem_pct", EncodePart(r, MemPct))
    + OneEntry("disk_pct", EncodePart(r, DiskPct)) + OneEntry("offline", EncodePart(r, Offline))
    + OneEntry("service_down", EncodePart(r, ServiceDown))
  }

  lemma NamesAreTold(a: RuleType, b: RuleType)
    ensures Spells(RuleName(a), b) <==> a == b
  {
    if Spells(RuleName(a), b) {
      var x, y := Fold(RuleName(a)), Fold(RuleName(b));
      assert |x| == |y| && x[0] == y[0];
      assert x[0] == FoldChar(RuleName(a)[0]) && y[0] == FoldChar(RuleName(b)[0]);
    }
  }

  /** An entry under another rule's name changes nothing for `rt`; one under its own name gives its fields. */
  lemma GatherOne(before: seq<Entry>, t: RuleType, raw: Option<Raw>, rt: RuleType)
    requires raw.Some? ==> raw.value.Rule?
    requires t == rt ==> Gathered(before, rt).None?
    ensures Gathered(before + OneEntry(RuleName(t), raw), rt)
         == if t == rt && raw.Some? then Some(raw.value.fields) else Gathered(before, rt)
  {
    NamesAreTold(t, rt);
    if raw.Some? {
      assert (before + OneEntry(RuleName(t), raw))[..|before|] == before;
    } else {
      assert before + OneEntry(RuleName(t), raw) == before;
    }
  }

  /** The entries for some rule types under their names, in this order. */
  function EncodeTypes(r: Rules, name: RuleType -> string, ts: seq<RuleType>): seq<Entry> {
    if ts == [] then []
    else EncodeTypes(r, name, ts[..|ts| - 1]) + OneEntry(name(ts[|ts| - 1]), EncodePart(r, ts[|ts| - 1]))
  }

  lemma EncodeOneMore(r: Rules, name: RuleType -> string, ts: seq<RuleType>, t: RuleType)
    ensures EncodeTypes(r, name, ts + [t]) == EncodeTypes(r, name, ts) + OneEntry(name(t), EncodePart(r, t))
  {
    assert (ts + [t])[..|ts|] == ts;
  }

  /** The entries of the types `ts` give each of them its encoded part and every other type nothing. */
  ghost predicate ReadsAs(r: Rules, ts: seq<RuleType>, rt: RuleType) {
    Gathered(EncodeTypes(r, RuleName, ts), rt) == if rt in ts && EncodePart(r, rt).Some? then Some(EncodePart(r, rt).value.fields) else None
  }

  lemma GatherMore(r: Rules, before: seq<Entry>, has: bool, t: RuleType, rt: RuleType)
    requires Gathered(before, rt) == if has && EncodePart(r, rt).Some? then Some(EncodePart(r, rt).value.fields) else None
    requires t == rt ==> !has
    ensures Gathered(before + OneEntry(RuleName(t), EncodePart(r, t)), rt)
         == if (has || t == rt) && EncodePart(r, rt).Some? then Some(EncodePart(r, rt).value.fields) else None
  {
    PartReads(r, t);
    GatherOne(before, t, EncodePart(r, t), rt);
  }

  lemma ReadsMore(r: Rules, ts: seq<RuleType>, t: RuleType, rt: RuleType)
    requires t !in ts && ReadsAs(r, ts, rt)
    ensures ReadsAs(r, ts + [t], rt)
  {
    EncodeOneMore(r, RuleName, ts, t);
    GatherMore(r, EncodeTypes(r, RuleName, ts), rt in ts, t, rt);
  }

  lemma {:induction false} GrowTypes(p: seq<RuleType> -> bool, ts: seq<RuleType>)
    requires p([]) && forall s, t :: p(s) && t !in s ==> p(s + [t])
    requires forall i, j :: 0 <= i < j < |ts| ==> ts[i] != ts[j]
    ensures p(ts)
  {
    if ts != [] {
      GrowTypes(p, ts[..|ts| - 1]);
      assert ts == ts[..|ts| - 1] + [ts[|ts| - 1]];
    }
  }

  lemma GatherTypes(r: Rules, ts: seq<RuleType>, rt: RuleType)
    requires forall i, j :: 0 <= i < j < |ts| ==> ts[i] != ts[j]
    ensures ReadsAs(r, ts, rt)
  {
    var p := (ts: seq<RuleType>) => ReadsAs(r, ts, rt);
    forall s, t | p(s) && t !in s
      ensures p(s + [t])
    {
      ReadsMore(r, s, t, rt);
    }
    GrowTypes(p, ts);
  }

  const ALL_TYPES := [CpuPct, MemPct, DiskPct, Offline, ServiceDown]

  lemma EncodeFive(r: Rules, name: RuleType -> string, a: RuleType, b: RuleType, c: RuleType, d: RuleType, e: RuleType)
    ensures EncodeTypes(r, name, [] + [a] + [b] + [c] + [d] + [e])
         == [] + OneEntry(name(a), EncodePart(r, a)) + OneEntry(name(b), EncodePart(r, b)) + OneEntry(name(c), EncodePart(r, c))
            + OneEntry(name(d), EncodePart(r, d)) + OneEntry(name(e), EncodePart(r, e))
  {
    EncodeOneMore(r, name, [], a);
    EncodeOneMore(r, name, [] + [a], b);
    EncodeOneMore(r, name, [] + [a] + [b], c);
    EncodeOneMore(r, name, [] + [a] + [b] + [c], d);
    EncodeOneMore(r, name, [] + [a] + [b] + [c] + [d], e);
  }

  lemma NothingBefore(e: seq<Entry>)
    ensures [] + e == e
  {
  }

  lemma EncodeAll(r: Rules)
    ensures EncodeTypes(r, RuleName, ALL_TYPES) == EncodeRules(r)
  {
    EncodeFive(r, RuleName, CpuPct, MemPct, DiskPct, Offline, ServiceDown);
    NothingBefore(OneEntry("cpu_pct", EncodePart(r, CpuPct)));
    assert [] + [CpuPct] + [MemPct] + [DiskPct] + [Offline] + [ServiceDown] == ALL_TYPES;
  }

  lemma EveryTypeIsListed(rt: RuleType)
    ensures rt in ALL_TYPES
  {
    assert ALL_TYPES[0] == CpuPct && ALL_TYPES[1] == MemPct && ALL_TYPES[2] == DiskPct;
    assert ALL_TYPES[3] == Offline && ALL_TYPES[4] == ServiceDown;
  }

  /** A rule object with no field of a wrong type is acceptable for every rule type. */
  ghost predicate WellTyped(raw: Raw) {
    raw.Rule? && !raw.fields.threshold.WrongType? && !raw.fields.mounts.WrongType? && !raw.fields.afterS.WrongType?
    && !raw.fields.services.WrongType? && !raw.fields.severity.WrongType?
  }

  lemma {:induction false} EncodedWellTyped(r: Rules, name: RuleType -> string, ts: seq<RuleType>)
    ensures forall i :: 0 <= i < |EncodeTypes(r, name, ts)| ==> WellTyped(EncodeTypes(r, name, ts)[i].raw)
  {
    if ts != [] {
      EncodedWellTyped(r, name, ts[..|ts| - 1]);
    }
  }

  lemma WellTypedDecodes(entries: seq<Entry>)
    requires forall i :: 0 <= i < |entries| ==> WellTyped(entries[i].raw)
    ensures Decodable(Object(entries))
  {
  }

  /** The encoded part of a type is read as the rule it encodes. */
  lemma PartReads(r: Rules, rt: RuleType)
    ensures EncodePart(r, rt).None? <==> r.Get(rt).None?
    ensures EncodePart(r, rt).Some? ==> EncodePart(r, rt).value.Rule? && r.Get(rt) == Some(BodyOf(rt, EncodePart(r, rt).value.fields))
  {
  }

  lemma TypesReadBack(r: Rules, ts: seq<RuleType>, entries: seq<Entry>, rt: RuleType)
    requires entries == EncodeTypes(r, RuleName, ts) && rt in ts
    requires forall i, j :: 0 <= i < j < |ts| ==> ts[i] != ts[j]
    ensures Reading(Object(entries), rt) == r.Get(rt)
  {
    GatherTypes(r, ts, rt);
    PartReads(r, rt);
  }

  lemma TypesRoundTrip(r: Rules, ts: seq<RuleType>, entries: seq<Entry>)
    requires entries == EncodeTypes(r, RuleName, ts) && forall rt :: rt in ts
    requires forall i, j :: 0 <= i < j < |ts| ==> ts[i] != ts[j]
    ensures Decode(Object(entries)) == Some(r)
  {
    EncodedWellTyped(r, RuleName, ts);
    WellTypedDecodes(entries);
    forall rt
      ensures Typed(Object(entries)).Get(rt) == r.Get(rt)
    {
      TypesReadBack(r, ts, entries, rt);
      TypedIsReading(Object(entries), rt);
    }
    GetDetermines(Typed(Object(entries)), r);
  }

  /** The worker reads back exactly the rules that were encoded, each under its own name and with its own fields. */
  lemma RulesRoundTrip(r: Rules)
    ensures Decode(Object(EncodeRules(r))) == Some(r)
  {
    EncodeAll(r);
    forall rt {
      EveryTypeIsListed(rt);
    }
    TypesRoundTrip(r, ALL_TYPES, EncodeRules(r));
  }

  /** A field left out of the stored rule is the zero value. */
  lemma LeftOutIsZero(f: Fields)
    requires f == Fields(Missing, Missing, Missing, Missing, Missing)
    ensures Reading(Object([Entry("cpu_pct", Rule(f))]), CpuPct) == Some(ThresholdBody(ThresholdRule(0.0, "")))
    ensures Reading(Object([Entry("mem_pct", Rule(f))]), MemPct) == Some(ThresholdBody(ThresholdRule(0.0, "")))
    ensures Reading(Object([Entry("disk_pct", Rule(f))]), DiskPct) == Some(DiskBody(DiskRule(0.0, [], "")))
    ensures Reading(Object([Entry("offline", Rule(f))]), Offline) == Some(OfflineBody(OfflineRule(0, "")))
    ensures Reading(Object([Entry("service_down", Rule(f))]), ServiceDown) == Some(ServiceBody(ServiceRule([], "")))
  {
    OneIsRead(CpuPct, f);
    OneIsRead(MemPct, f);
    OneIsRead(DiskPct, f);
    OneIsRead(Offline, f);
    OneIsRead(ServiceDown, f);
  }

  lemma OneIsRead(rt: RuleType, f: Fields)
    ensures Reading(Object([Entry(RuleName(rt), Rule(f))]), rt) == Some(BodyOf(rt, f))
  {
    GatherOne([], rt, Some(Rule(f)), rt);
    assert [] + OneEntry(RuleName(rt), Some(Rule(f))) == [Entry(RuleName(rt), Rule(f))];
  }

  lemma GetDetermines(a: Rules, b: Rules)
    requires forall rt :: a.Get(rt) == b.Get(rt)
    ensures a == b
  {
    assert a.Get(CpuPct) == b.Get(CpuPct) && a.Get(MemPct) == b.Get(MemPct) && a.Get(DiskPct) == b.Get(DiskPct);
    assert a.Get(Offline) == b.Get(Offline) && a.Get(ServiceDown) == b.Get(ServiceDown);
  }

  /** The worker's view of one stored policy on one device. */
  function Scoped(p: Policy, d: DeviceScopeOf): Option<ScopedPolicy> {
    if !InForce(p, d) then None
    else match Decode(p.rules)
         case None => None
         case Some(rules) => Some(ScopedPolicy(p.id, ScopeRank(p.scopeType), rules, p.channels))
  }

  /** What a stored policy offers the worker for one rule type, by its place in the stored list. */
  function WorkerMark(p: Policy, d: DeviceScopeOf, rt: RuleType): Option<Mark<Sourced<RuleBody>>> {
    match Scoped(p, d) case None => None case Some(sp) => MarkOf(sp, rt)
  }

  function WorkerMarks(policies: seq<Policy>, d: DeviceScopeOf, rt: RuleType): (marks: Marks<Sourced<RuleBody>>)
    ensures |marks| == |policies| && forall i :: 0 <= i < |policies| ==> marks[i] == WorkerMark(policies[i], d, rt)
  {
    if policies == [] then []
    else WorkerMarks(policies[..|policies| - 1], d, rt) + [WorkerMark(policies[|policies| - 1], d, rt)]
  }

  /** Dropping the policies that offer nothing does not move the last value of a rank. */
  lemma LastAtSkips<V>(short: Marks<V>, long: Marks<V>, m: Option<Mark<V>>, rank: int)
    requires LastAt(short, rank) == LastAt(long, rank)
    ensures LastAt(short + [m], rank) == LastAt(long + [m], rank)
    ensures LastAt(long + [None], rank) == LastAt(long, rank)
  {
    assert (short + [m])[..|short|] == short && (long + [m])[..|long|] == long;
    assert (long + [None])[..|long|] == long;
  }

  lemma {:induction false} SameLastsSameNearest<V>(a: Marks<V>, b: Marks<V>, top: int)
    requires forall rank :: LastAt(a, rank) == LastAt(b, rank)
    ensures Nearest(a, top) == Nearest(b, top)
    decreases if top < 0 then 0 else top + 1
  {
    if top >= 0 {
      SameLastsSameNearest(a, b, top - 1);
    }
  }

  /** What effectiveFor must return: the declarative winner over the stored list itself. */
  ghost predicate IsEffective(policies: seq<Policy>, d: DeviceScopeOf, eff: Effective) {
    forall rt :: eff.Get(rt) == Nearest(WorkerMarks(policies, d, rt), MAX_SCOPE_RANK)
  }

  /** The policy is enabled and its scope is the tenant, or the device's customer, site, one of its tags, or itself. */
  ghost predicate Reaches(p: Policy, d: DeviceScopeOf) {
    && p.enabled
    && match p.scopeType
       case TenantScope => true
       case CustomerScope => p.scopeId == Some(d.customer)
       case SiteScope => p.scopeId == Some(d.site)
       case TagScope => exists tag :: tag in d.tags && p.scopeTag == Some(tag)
       case DeviceScope => p.scopeId == Some(d.device)
       case OtherScope(_) => false
  }

  /** Device before tag before site before customer before tenant; any other scope comes before nothing. */
  ghost predicate AtLeastAsNarrow(a: ScopeType, b: ScopeType) {
    match b
    case DeviceScope => a == DeviceScope
    case TagScope => a in {DeviceScope, TagScope}
    case SiteScope => a in {DeviceScope, TagScope, SiteScope}
    case CustomerScope => a in {DeviceScope, TagScope, SiteScope, CustomerScope}
    case TenantScope => a in {DeviceScope, TagScope, SiteScope, CustomerScope, TenantScope}
    case OtherScope(_) => false
  }

  /** The policy at `j` gives the device a rule of the type, as the worker reads its stored object. */
  ghost predicate GivesRule(policies: seq<Policy>, d: DeviceScopeOf, rt: RuleType, j: int) {
    0 <= j < |policies| && Reaches(policies[j], d) && Decodable(policies[j].rules) && Reading(policies[j].rules, rt).Some?
  }

  /**
   What inheritance means: the rule is that of a policy of the narrowest scope that gives one, the
   last listed among those of that scope; there is none only if no policy gives one.
   */
  ghost predicate IsNearestRule(policies: seq<Policy>, d: DeviceScopeOf, rt: RuleType, r: Option<Sourced<RuleBody>>) {
    match r
    case None => forall j :: !GivesRule(policies, d, rt, j)
    case Some(s) => exists i :: GivesRule(policies, d, rt, i)
                      && s == Sourced(Reading(policies[i].rules, rt).value, policies[i].id, policies[i].channels)
                      && forall j :: GivesRule(policies, d, rt, j) ==>
                           && AtLeastAsNarrow(policies[i].scopeType, policies[j].scopeType)
                           && (policies[j].scopeType == policies[i].scopeType ==> j <= i)
  }

  lemma MarkMeansRule(policies: seq<Policy>, d: DeviceScopeOf, rt: RuleType, j: int)
    ensures GivesRule(policies, d, rt, j) <==> Offers(WorkerMarks(policies, d, rt), j)
    ensures GivesRule(policies, d, rt, j) ==>
              WorkerMarks(policies, d, rt)[j].value.value == Sourced(Reading(policies[j].rules, rt).value, policies[j].id, policies[j].channels)
  {
    if 0 <= j < |policies| {
      ReachesIsInForce(policies[j], d);
      if policies[j].rules.Object? {
        TypedIsReading(policies[j].rules, rt);
      }
    }
  }

  lemma ReachesIsInForce(p: Policy, d: DeviceScopeOf)
    ensures Reaches(p, d) <==> InForce(p, d)
    ensures InForce(p, d) ==> 0 <= ScopeRank(p.scopeType) <= MAX_SCOPE_RANK
  {
    assert p.scopeTag.Some? ==> p.scopeTag == Some(p.scopeTag.value);
  }

  lemma RankIsNarrowness(a: ScopeType, b: ScopeType)
    requires !b.OtherScope?
    ensures AtLeastAsNarrow(a, b) <==> ScopeRank(a) >= ScopeRank(b)
    ensures ScopeRank(a) == ScopeRank(b) ==> a == b
  {
  }

  lemma WinnerIsNarrowest(policies: seq<Policy>, d: DeviceScopeOf, rt: RuleType, i: int, j: int)
    requires Wins(WorkerMarks(policies, d, rt), i) && GivesRule(policies, d, rt, j)
    ensures GivesRule(policies, d, rt, i) && AtLeastAsNarrow(policies[i].scopeType, policies[j].scopeType)
    ensures policies[j].scopeType == policies[i].scopeType ==> j <= i
  {
    MarkMeansRule(policies, d, rt, i);
    MarkMeansRule(policies, d, rt, j);
    ReachesIsInForce(policies[j], d);
    RankIsNarrowness(policies[i].scopeType, policies[j].scopeType);
  }

  /** The worker's merge gives exactly that. */
  lemma NearestIsNarrowest(policies: seq<Policy>, d: DeviceScopeOf, rt: RuleType)
    ensures IsNearestRule(policies, d, rt, Nearest(WorkerMarks(policies, d, rt), MAX_SCOPE_RANK))
  {
    var marks := WorkerMarks(policies, d, rt);
    var i := NearestIsWinner(marks);
    if Nearest(marks, MAX_SCOPE_RANK).Some? {
      MarkMeansRule(policies, d, rt, i);
      forall j | GivesRule(policies, d, rt, j)
        ensures AtLeastAsNarrow(policies[i].scopeType, policies[j].scopeType)
        ensures policies[j].scopeType == policies[i].scopeType ==> j <= i
      {
        WinnerIsNarrowest(policies, d, rt, i, j);
      }
    } else {
      forall j {
        MarkMeansRule(policies, d, rt, j);
      }
    }
  }

  /** The scoped list offers, for every rule type, what the stored list does. */
  ghost predicate SameOffers(scoped: seq<ScopedPolicy>, policies: seq<Policy>, d: DeviceScopeOf) {
    forall rt, rank :: LastAt(MarksOf(scoped, rt), rank) == LastAt(WorkerMarks(policies, d, rt), rank)
  }

  lemma OneMoreOffer(scoped: seq<ScopedPolicy>, sp: Option<ScopedPolicy>, long: Marks<Sourced<RuleBody>>, m: Option<Mark<Sourced<RuleBody>>>, rt: RuleType, rank: int)
    requires m == (if sp.Some? then MarkOf(sp.value, rt) else None)
    requires LastAt(MarksOf(scoped, rt), rank) == LastAt(long, rank)
    ensures LastAt(MarksOf(if sp.Some? then scoped + [sp.value] else scoped, rt), rank) == LastAt(long + [m], rank)
  {
    LastAtSkips(MarksOf(scoped, rt), long, m, rank);
    if sp.Some? {
      assert MarksOf(scoped + [sp.value], rt) == MarksOf(scoped, rt) + [MarkOf(sp.value, rt)];
    }
  }

  lemma WorkerMarksExtend(policies: seq<Policy>, k: nat, d: DeviceScopeOf, rt: RuleType)
    requires k < |policies|
    ensures WorkerMarks(policies[..k + 1], d, rt) == WorkerMarks(policies[..k], d, rt) + [WorkerMark(policies[k], d, rt)]
  {
    assert policies[..k + 1][..k] == policies[..k];
  }

  lemma OneMoreScoped(scoped: seq<ScopedPolicy>, policies: seq<Policy>, k: nat, d: DeviceScopeOf, sp: Option<ScopedPolicy>)
    requires k < |policies| && SameOffers(scoped, policies[..k], d) && sp == Scoped(policies[k], d)
    ensures SameOffers(if sp.Some? then scoped + [sp.value] else scoped, policies[..k + 1], d)
  {
    var longer := if sp.Some? then scoped + [sp.value] else scoped;
    forall rt, rank
      ensures LastAt(MarksOf(longer, rt), rank) == LastAt(WorkerMarks(policies[..k + 1], d, rt), rank)
    {
      WorkerMarksExtend(policies, k, d, rt);
      OneMoreOffer(scoped, sp, WorkerMarks(policies[..k], d, rt), WorkerMark(policies[k], d, rt), rt, rank);
    }
  }

  /** worker.effectiveFor: filter by device, decode, then Merge. */
  method EffectiveFor(policies: seq<Policy>, d: DeviceScopeOf) returns (eff: Effective)
    ensures IsEffective(policies, d, eff)
    ensures forall rt :: IsNearestRule(policies, d, rt, eff.Get(rt))
  {
    var scoped: seq<ScopedPolicy> := [];
    for k := 0 to |policies|
      invariant SameOffers(scoped, policies[..k], d)
    {
      var sp := Scoped(policies[k], d);
      OneMoreScoped(scoped, policies, k, d, sp);
      if sp.Some? {
        scoped := scoped + [sp.value];
      }
    }
    assert policies[..|policies|] == policies;
    eff := Merge(scoped);
    forall rt
      ensures eff.Get(rt) == Nearest(WorkerMarks(policies, d, rt), MAX_SCOPE_RANK)
    {
      SameLastsSameNearest(MarksOf(scoped, rt), WorkerMarks(policies, d, rt), MAX_SCOPE_RANK);
    }
    forall rt
      ensures IsNearestRule(policies, d, rt, eff.Get(rt))
    {
      NearestIsNarrowest(policies, d, rt);
    }
  }

  // ---------------------------------------------------------------------
  // The dashboard's merge

  datatype DashRule = DashRule(rule: Raw, policy: Id, name: string, scopeType: ScopeType)

  function Shown(p: Policy, raw: Raw): DashRule {
    DashRule(raw, p.id, p.name, p.scopeType)
  }

  /** json.Unmarshal into a map: keys exactly as stored. */
  function AsMap(entries: seq<Entry>): map<string, Raw> {
    if entries == [] then map[]
    else AsMap(entries[..|entries| - 1])[entries[|entries| - 1].key := entries[|entries| - 1].raw]
  }

  function DashMark(p: Policy, d: DeviceScopeOf, key: string): Option<Mark<DashRule>> {
    if InForce(p, d) && p.rules.Object? && key in AsMap(p.rules.entries)
    then Some(Mark(ScopeRank(p.scopeType), Shown(p, AsMap(p.rules.entries)[key])))
    else None
  }

  function DashMarks(policies: seq<Policy>, d: DeviceScopeOf, key: string): Marks<DashRule> {
    seq(|policies|, i requires 0 <= i < |policies| => DashMark(policies[i], d, key))
  }

  /** Entry `n` is the last the stored object has under `key`. */
  ghost predicate LastUnder(entries: seq<Entry>, key: string, n: int) {
    0 <= n < |entries| && entries[n].key == key && forall m :: n < m < |entries| ==> entries[m].key != key
  }

  /** Decoding into a map keeps, of the entries under one key, the last. */
  lemma {:induction false} AsMapKeepsLast(entries: seq<Entry>, key: string)
    ensures key in AsMap(entries) <==> exists n :: 0 <= n < |entries| && entries[n].key == key
    ensures key in AsMap(entries) ==> exists n :: LastUnder(entries, key, n) && AsMap(entries)[key] == entries[n].raw
  {
    if entries != [] {
      var last := |entries| - 1;
      var before := entries[..last];
      AsMapKeepsLast(before, key);
      if entries[last].key == key {
        assert LastUnder(entries, key, last);
      } else if key in AsMap(before) {
        var n :| LastUnder(before, key, n) && AsMap(before)[key] == before[n].raw;
        assert LastUnder(entries, key, n);
      }
    }
  }

  /** The policy at `j` reaches the device and stores something under exactly this key. */
  ghost predicate StoresKey(policies: seq<Policy>, d: DeviceScopeOf, key: string, j: int) {
    0 <= j < |policies| && Reaches(policies[j], d) && policies[j].rules.Object?
    && exists n :: 0 <= n < |policies[j].rules.entries| && policies[j].rules.entries[n].key == key
  }

  /** What the display means: the entry of a policy of the narrowest scope that stores the key, the last of those. */
  ghost predicate IsNearestEntry(policies: seq<Policy>, d: DeviceScopeOf, key: string, r: Option<DashRule>) {
    match r
    case None => forall j :: !StoresKey(policies, d, key, j)
    case Some(s) => exists i, n :: StoresKey(policies, d, key, i) && LastUnder(policies[i].rules.entries, key, n)
                      && s == DashRule(policies[i].rules.entries[n].raw, policies[i].id, policies[i].name, policies[i].scopeType)
                      && forall j :: StoresKey(policies, d, key, j) ==>
                           && AtLeastAsNarrow(policies[i].scopeType, policies[j].scopeType)
                           && (policies[j].scopeType == policies[i].scopeType ==> j <= i)
  }

  lemma MarkMeansEntry(policies: seq<Policy>, d: DeviceScopeOf, key: string, j: int)
    ensures StoresKey(policies, d, key, j) <==> Offers(DashMarks(policies, d, key), j)
  {
    if 0 <= j < |policies| {
      ReachesIsInForce(policies[j], d);
      if policies[j].rules.Object? {
        AsMapKeepsLast(policies[j].rules.entries, key);
      }
    }
  }

  /** The dashboard's merge gives exactly that. */
  lemma NearestIsNarrowestEntry(policies: seq<Policy>, d: DeviceScopeOf, key: string)
    ensures IsNearestEntry(policies, d, key, Nearest(DashMarks(policies, d, key), MAX_SCOPE_RANK))
  {
    var marks := DashMarks(policies, d, key);
    var i := NearestIsWinner(marks);
    forall j {
      MarkMeansEntry(policies, d, key, j);
    }
    if Nearest(marks, MAX_SCOPE_RANK).Some? {
      assert StoresKey(policies, d, key, i);
      AsMapKeepsLast(policies[i].rules.entries, key);
      var n :| LastUnder(policies[i].rules.entries, key, n) && AsMap(policies[i].rules.entries)[key] == policies[i].rules.entries[n].raw;
      forall j | StoresKey(policies, d, key, j)
        ensures AtLeastAsNarrow(policies[i].scopeType, policies[j].scopeType)
        ensures policies[j].scopeType == policies[i].scopeType ==> j <= i
      {
        assert Offers(marks, j);
        ReachesIsInForce(policies[j], d);
        RankIsNarrowness(policies[i].scopeType, policies[j].scopeType);
      }
    }
  }

  function At(out: map<string, DashRule>, key: string): Option<DashRule> {
    if key in out then Some(out[key]) else None
  }

  /** The candidates the dashboard merges: in force and parsed as an object, in list order. */
  function Candidates(policies: seq<Policy>, d: DeviceScopeOf): (r: seq<Policy>)
    ensures forall i :: 0 <= i < |r| ==> InForce(r[i], d) && r[i].rules.Object?
  {
    if policies == [] then []
    else
      var p := policies[|policies| - 1];
      Candidates(policies[..|policies| - 1], d) + (if InForce(p, d) && p.rules.Object? then [p] else [])
  }

  lemma {:induction false} CandidatesKeepLasts(policies: seq<Policy>, d: DeviceScopeOf, key: string, rank: int)
    ensures LastAt(DashMarks(Candidates(policies, d), d, key), rank) == LastAt(DashMarks(policies, d, key), rank)
  {
    if policies != [] {
      var n := |policies| - 1;
      var before, p := Candidates(policies[..n], d), policies[n];
      CandidatesKeepLasts(policies[..n], d, key, rank);
      var long := DashMarks(policies[..n], d, key);
      assert DashMarks(policies, d, key) == long + [DashMark(p, d, key)];
      LastAtSkips(DashMarks(before, d, key), long, DashMark(p, d, key), rank);
      if InForce(p, d) && p.rules.Object? {
        assert DashMarks(before + [p], d, key) == DashMarks(before, d, key) + [DashMark(p, d, key)];
      } else {
        assert DashMark(p, d, key) == None;
        assert Candidates(policies, d) == before;
      }
    }
  }

  /** One candidate of the rank being merged overwrites its keys; one of another rank leaves the map alone. */
  lemma OneMoreCandidate(base: Option<DashRule>, cands: seq<Policy>, k: nat, d: DeviceScopeOf, key: string, rank: int)
    requires k < |cands| && InForce(cands[k], d) && cands[k].rules.Object?
    ensures var m := DashMarks(cands[..k], d, key);
      OverBy(base, DashMarks(cands[..k + 1], d, key), rank)
        == if ScopeRank(cands[k].scopeType) == rank && key in AsMap(cands[k].rules.entries)
           then Some(Shown(cands[k], AsMap(cands[k].rules.entries)[key])) else OverBy(base, m, rank)
  {
    var m := DashMarks(cands[..k + 1], d, key);
    assert m[..|m| - 1] == DashMarks(cands[..k], d, key) && m[|m| - 1] == DashMark(cands[k], d, key);
  }

  /** effectiveRulesJSON: candidates first, then the rank-by-rank overwrite of a map. */
  method EffectiveRulesJSON(policies: seq<Policy>, d: DeviceScopeOf) returns (out: map<string, DashRule>)
    ensures forall key :: At(out, key) == Nearest(DashMarks(policies, d, key), MAX_SCOPE_RANK)
    ensures forall key :: IsNearestEntry(policies, d, key, if key in out then Some(out[key]) else None)
  {
    var cands: seq<Policy> := [];
    for k := 0 to |policies|
      invariant cands == Candidates(policies[..k], d)
    {
      assert policies[..k + 1][..k] == policies[..k];
      if InForce(policies[k], d) && policies[k].rules.Object? {
        cands := cands + [policies[k]];
      }
    }
    assert policies[..|policies|] == policies;
    out := MergeByRank(cands, d);
    forall key
      ensures At(out, key) == Nearest(DashMarks(policies, d, key), MAX_SCOPE_RANK)
    {
      forall rank {
        CandidatesKeepLasts(policies, d, key, rank);
      }
      SameLastsSameNearest(DashMarks(cands, d, key), DashMarks(policies, d, key), MAX_SCOPE_RANK);
    }
    forall key
      ensures IsNearestEntry(policies, d, key, if key in out then Some(out[key]) else None)
    {
      assert At(out, key) == Nearest(DashMarks(policies, d, key), MAX_SCOPE_RANK);
      NearestIsNarrowestEntry(policies, d, key);
    }
  }

  ghost predicate ShownUpTo(cands: seq<Policy>, d: DeviceScopeOf, out: map<string, DashRule>, top: int) {
    forall key :: At(out, key) == Nearest(DashMarks(cands, d, key), top)
  }

  ghost predicate Replaced(base: map<string, DashRule>, cands: seq<Policy>, d: DeviceScopeOf, rank: int, out: map<string, DashRule>) {
    forall key :: At(out, key) == OverBy(At(base, key), DashMarks(cands, d, key), rank)
  }

  function Put(out: map<string, DashRule>, c: Policy): map<string, DashRule>
    requires c.rules.Object?
  {
    var rules := AsMap(c.rules.entries);
    out + map key | key in rules :: Shown(c, rules[key])
  }

  lemma ReplacedOneMore(base: map<string, DashRule>, cands: seq<Policy>, k: nat, d: DeviceScopeOf, rank: int, out: map<string, DashRule>)
    requires k < |cands| && InForce(cands[k], d) && cands[k].rules.Object? && Replaced(base, cands[..k], d, rank, out)
    ensures Replaced(base, cands[..k + 1], d, rank, if ScopeRank(cands[k].scopeType) == rank then Put(out, cands[k]) else out)
  {
    forall key
      ensures At(if ScopeRank(cands[k].scopeType) == rank then Put(out, cands[k]) else out, key)
           == OverBy(At(base, key), DashMarks(cands[..k + 1], d, key), rank)
    {
      OneMoreCandidate(At(base, key), cands, k, d, key, rank);
    }
  }

  method MergeByRank(cands: seq<Policy>, d: DeviceScopeOf) returns (out: map<string, DashRule>)
    requires forall i :: 0 <= i < |cands| ==> InForce(cands[i], d) && cands[i].rules.Object?
    ensures ShownUpTo(cands, d, out, MAX_SCOPE_RANK)
  {
    out := map[];
    assert ShownUpTo(cands, d, out, -1);
    for rank := 0 to MAX_SCOPE_RANK + 1
      invariant ShownUpTo(cands, d, out, rank - 1)
    {
      out := ShowRank(cands, d, rank, out);
    }
  }

  method ShowRank(cands: seq<Policy>, d: DeviceScopeOf, rank: int, base: map<string, DashRule>) returns (out: map<string, DashRule>)
    requires forall i :: 0 <= i < |cands| ==> InForce(cands[i], d) && cands[i].rules.Object?
    requires 0 <= rank && ShownUpTo(cands, d, base, rank - 1)
    ensures ShownUpTo(cands, d, out, rank)
  {
    out := base;
    for k := 0 to |cands|
      invariant Replaced(base, cands[..k], d, rank, out)
    {
      ReplacedOneMore(base, cands, k, d, rank, out);
      if ScopeRank(cands[k].scopeType) == rank {
        out := Put(out, cands[k]);
      }
    }
    assert cands[..|cands|] == cands;
  }

  // ---------------------------------------------------------------------
  // Where the two agree

  /** What the entry shown amounts to, read on its own. */
  function ReadAlone(rt: RuleType, raw: Raw): Option<RuleBody> {
    if raw.Rule? then Some(BodyOf(rt, raw.fields)) else None
  }

  /** The two merges name the same rule and the same policy for `rt`. */
  predicate SameAnswer(rt: RuleType, worker: Option<Sourced<RuleBody>>, dash: Option<DashRule>) {
    match (worker, dash)
    case (None, None) => true
    case (Some(w), Some(s)) => ReadAlone(rt, s.rule) == Some(w.rule) && s.policy == w.policy
    case _ => false
  }

  ghost predicate Agree(policies: seq<Policy>, d: DeviceScopeOf, rt: RuleType) {
    SameAnswer(rt, Nearest(WorkerMarks(policies, d, rt), MAX_SCOPE_RANK), Nearest(DashMarks(policies, d, RuleName(rt)), MAX_SCOPE_RANK))
  }

  /** The policy stores something under the rule's exact name. */
  predicate Canonical(p: Policy, rt: RuleType) {
    p.rules.Object? && RuleName(rt) in AsMap(p.rules.entries)
  }

  /** And it is what the worker reads: the policy decodes, the entry is no null, no other spelling changes it. */
  predicate Truthful(p: Policy, rt: RuleType) {
    && Canonical(p, rt) && Decodable(p.rules) && Reading(p.rules, rt).Some?
    && Reading(p.rules, rt) == ReadAlone(rt, AsMap(p.rules.entries)[RuleName(rt)])
  }

  /** What one policy offers the two, compared. */
  ghost predicate Compared(rt: RuleType, w: Option<Mark<Sourced<RuleBody>>>, s: Option<Mark<DashRule>>, id: Id, truthful: bool, canonical: bool) {
    && (w.Some? ==> (s.Some? <==> canonical) && w.value.value.policy == id)
    && (s.Some? ==> s.value.value.policy == id)
    && (w.Some? && s.Some? ==> w.value.rank == s.value.rank)
    && (s.Some? ==> (truthful <==> w.Some? && SameAnswer(rt, Some(w.value.value), Some(s.value.value))))
  }

  lemma OffersCompared(p: Policy, d: DeviceScopeOf, rt: RuleType)
    ensures Compared(rt, WorkerMark(p, d, rt), DashMark(p, d, RuleName(rt)), p.id, Truthful(p, rt), Canonical(p, rt))
  {
    if p.rules.Object? {
      TypedIsReading(p.rules, rt);
    }
  }

  ghost predicate AllCompared(rt: RuleType, ws: Marks<Sourced<RuleBody>>, ds: Marks<DashRule>, ids: seq<Id>, truthful: seq<bool>, canonical: seq<bool>) {
    && |ws| == |ds| == |ids| == |truthful| == |canonical|
    && (forall i, j :: 0 <= i < j < |ids| ==> ids[i] != ids[j])
    && (forall i :: 0 <= i < |ids| ==> Compared(rt, ws[i], ds[i], ids[i], truthful[i], canonical[i]))
  }

  lemma WinsOnce<V>(marks: Marks<V>, i: int, j: int)
    requires Wins(marks, i) && Wins(marks, j)
    ensures i == j
  {
  }

  /** If the winners are fair to the other list they are the same. */
  lemma FairWinnersMeet(rt: RuleType, ws: Marks<Sourced<RuleBody>>, ds: Marks<DashRule>, ids: seq<Id>, truthful: seq<bool>, canonical: seq<bool>)
    requires AllCompared(rt, ws, ds, ids, truthful, canonical)
    requires (forall i :: Wins(ds, i) ==> truthful[i]) && (forall i :: Wins(ws, i) ==> canonical[i])
    ensures SameAnswer(rt, Nearest(ws, MAX_SCOPE_RANK), Nearest(ds, MAX_SCOPE_RANK))
  {
    var w := NearestIsWinner(ws);
    var s := NearestIsWinner(ds);
    if Nearest(ws, MAX_SCOPE_RANK).Some? {
      assert Compared(rt, ws[w], ds[w], ids[w], truthful[w], canonical[w]);
      assert Offers(ds, w);
    }
    if Nearest(ds, MAX_SCOPE_RANK).Some? {
      assert Compared(rt, ws[s], ds[s], ids[s], truthful[s], canonical[s]);
      assert Offers(ws, s);
    }
  }

  /** And if they are the same they are fair. */
  lemma MeetingWinnersAreFair(rt: RuleType, ws: Marks<Sourced<RuleBody>>, ds: Marks<DashRule>, ids: seq<Id>, truthful: seq<bool>, canonical: seq<bool>, i: int)
    requires AllCompared(rt, ws, ds, ids, truthful, canonical)
    requires SameAnswer(rt, Nearest(ws, MAX_SCOPE_RANK), Nearest(ds, MAX_SCOPE_RANK))
    ensures Wins(ds, i) ==> truthful[i]
    ensures Wins(ws, i) ==> canonical[i]
  {
    if Wins(ds, i) || Wins(ws, i) {
      var w := NearestIsWinner(ws);
      var s := NearestIsWinner(ds);
      assert Compared(rt, ws[w], ds[w], ids[w], truthful[w], canonical[w]);
      assert Compared(rt, ws[s], ds[s], ids[s], truthful[s], canonical[s]);
      assert w == s;
      if Wins(ds, i) {
        WinsOnce(ds, i, s);
      }
      if Wins(ws, i) {
        WinsOnce(ws, i, w);
      }
    }
  }

  ghost predicate DistinctIds(policies: seq<Policy>) {
    forall i, j :: 0 <= i < j < |policies| ==> policies[i].id != policies[j].id
  }

  function IdsOf(policies: seq<Policy>): seq<Id> {
    seq(|policies|, i requires 0 <= i < |policies| => policies[i].id)
  }

  function TruthfulOf(policies: seq<Policy>, rt: RuleType): seq<bool> {
    seq(|policies|, i requires 0 <= i < |policies| => Truthful(policies[i], rt))
  }

  function CanonicalOf(policies: seq<Policy>, rt: RuleType): seq<bool> {
    seq(|policies|, i requires 0 <= i < |policies| => Canonical(policies[i], rt))
  }

  lemma AllOffersCompared(policies: seq<Policy>, d: DeviceScopeOf, rt: RuleType)
    requires DistinctIds(policies)
    ensures AllCompared(rt, WorkerMarks(policies, d, rt), DashMarks(policies, d, RuleName(rt)),
                        IdsOf(policies), TruthfulOf(policies, rt), CanonicalOf(policies, rt))
  {
    var ws, ds := WorkerMarks(policies, d, rt), DashMarks(policies, d, RuleName(rt));
    forall i | 0 <= i < |policies|
      ensures Compared(rt, ws[i], ds[i], policies[i].id, Truthful(policies[i], rt), Canonical(policies[i], rt))
    {
      OffersCompared(policies[i], d, rt);
    }
  }

  /** What the dashboard shows is true of the worker, and what the worker applies is shown under its name. */
  ghost predicate Honest(policies: seq<Policy>, d: DeviceScopeOf, rt: RuleType) {
    && (forall i :: Wins(DashMarks(policies, d, RuleName(rt)), i) ==> Truthful(policies[i], rt))
    && (forall i :: Wins(WorkerMarks(policies, d, rt), i) ==> Canonical(policies[i], rt))
  }

  /**
   Exactly when the dashboard tells the truth about a rule type: the entry that wins there must
   be what the worker reads from that policy, and the policy that wins for the worker must
   store its rule under the exact name.
   */
  lemma {:induction false} DashboardAgreesIff(policies: seq<Policy>, d: DeviceScopeOf, rt: RuleType)
    requires DistinctIds(policies)
    ensures Agree(policies, d, rt) <==> Honest(policies, d, rt)
  {
    var ws, ds := WorkerMarks(policies, d, rt), DashMarks(policies, d, RuleName(rt));
    var ids, truthful, canonical := IdsOf(policies), TruthfulOf(policies, rt), CanonicalOf(policies, rt);
    AllOffersCompared(policies, d, rt);
    if Agree(policies, d, rt) {
      forall i
        ensures (Wins(ds, i) ==> truthful[i]) && (Wins(ws, i) ==> canonical[i])
      {
        MeetingWinnersAreFair(rt, ws, ds, ids, truthful, canonical, i);
      }
    }
    if Honest(policies, d, rt) {
      FairWinnersMeet(rt, ws, ds, ids, truthful, canonical);
    }
  }

  // ---------------------------------------------------------------------
  // Rules as the dashboard itself writes them

  /** Every key the decoder takes for a rule is spelled exactly, stands once and holds no null. */
  ghost predicate Clean(p: Policy) {
    && Decodable(p.rules)
    && (forall i, rt :: 0 <= i < |p.rules.entries| && Spells(p.rules.entries[i].key, rt) ==>
          p.rules.entries[i].key == RuleName(rt) && p.rules.entries[i].raw.Rule?)
    && (forall i, j :: 0 <= i < j < |p.rules.entries| ==> p.rules.entries[i].key != p.rules.entries[j].key)
  }

  lemma {:induction false} CleanReading(entries: seq<Entry>, rt: RuleType)
    requires forall i :: 0 <= i < |entries| && Spells(entries[i].key, rt) ==> entries[i].key == RuleName(rt) && entries[i].raw.Rule?
    requires forall i, j :: 0 <= i < j < |entries| ==> entries[i].key != entries[j].key
    ensures var m := AsMap(entries);
      && (forall key :: key in m ==> exists i :: 0 <= i < |entries| && entries[i].key == key)
      && (RuleName(rt) in m ==> m[RuleName(rt)].Rule?)
      && Gathered(entries, rt) == (if RuleName(rt) in m then Some(m[RuleName(rt)].fields) else None)
  {
    if entries != [] {
      var n := |entries| - 1;
      CleanReading(entries[..n], rt);
      assert Spells(RuleName(rt), rt);
      assert Spells(entries[n].key, rt) ==> RuleName(rt) !in AsMap(entries[..n]);
    }
  }

  /** In particular the two always agree on policies whose rules are stored clean. */
  lemma {:induction false} CleanRulesAgree(policies: seq<Policy>, d: DeviceScopeOf, rt: RuleType)
    requires DistinctIds(policies) && forall i :: 0 <= i < |policies| ==> Clean(policies[i])
    ensures Agree(policies, d, rt)
  {
    forall i | 0 <= i < |policies|
      ensures Canonical(policies[i], rt) ==> Truthful(policies[i], rt)
      ensures Reading(policies[i].rules, rt).Some? ==> Canonical(policies[i], rt)
    {
      assert Clean(policies[i]);
      CleanReading(policies[i].rules.entries, rt);
    }
    forall i | Wins(DashMarks(policies, d, RuleName(rt)), i)
      ensures Truthful(policies[i], rt)
    {
      OffersCompared(policies[i], d, rt);
    }
    assert Honest(policies, d, rt);
    DashboardAgreesIff(policies, d, rt);
  }

  function Only(threshold: real, severity: Part<string>): Raw {
    Rule(Fields(Given(threshold), Missing, Missing, Missing, severity))
  }

  function TenantPolicy(id: Id, entries: seq<Entry>): Policy {
    Policy(id, "broad", TenantScope, None, None, true, Object(entries), [])
  }

  /**
   Three objects the write path accepts, since it validates the decoded rules and stores the bytes,
   on which the two disagree: an explicit null nearer to the device than a rule, a rule
   stored in another case, and two spellings of which each gives a part.
   */
  lemma NullEntryMisleadsDashboard(d: DeviceScopeOf, a: Id, b: Id)
    requires a != b
    ensures
      var near := Policy(b, "near", DeviceScope, Some(d.device), None, true,
                         Object([Entry("cpu_pct", Null), Entry("mem_pct", Only(90.0, Missing))]), []);
      !Agree([TenantPolicy(a, [Entry("cpu_pct", Only(90.0, Missing))]), near], d, CpuPct)
  {
    var broad := TenantPolicy(a, [Entry("cpu_pct", Only(90.0, Missing))]);
    var near := Policy(b, "near", DeviceScope, Some(d.device), None, true,
                       Object([Entry("cpu_pct", Null), Entry("mem_pct", Only(90.0, Missing))]), []);
    var ps := [broad, near];
    var m := DashMarks(ps, d, "cpu_pct");
    var e := near.rules.entries;
    assert e[..1] == [e[0]] && [e[0]][..0] == [];
    assert AsMap([e[0]]) == map["cpu_pct" := Null];
    assert AsMap(e)["cpu_pct"] == Null;
    assert Wins(m, 1) && !Truthful(near, CpuPct);
    DashboardAgreesIff(ps, d, CpuPct);
  }

  lemma FoldedKeyHidesARule(d: DeviceScopeOf, a: Id)
    ensures !Agree([TenantPolicy(a, [Entry("CPU_PCT", Only(90.0, Missing))])], d, CpuPct)
  {
    var p := TenantPolicy(a, [Entry("CPU_PCT", Only(90.0, Missing))]);
    var e := p.rules.entries;
    assert e[..|e| - 1] == [];
    CpuSpellings();
    assert AsMap(e).Keys == {"CPU_PCT"};
    assert "cpu_pct"[0] != "CPU_PCT"[0];
    assert !Canonical(p, CpuPct);
    assert Gathered(e, CpuPct) == Some(Only(90.0, Missing).fields);
    OnlyCpuIsSpelled("CPU_PCT");
    assert Wins(WorkerMarks([p], d, CpuPct), 0);
    DashboardAgreesIff([p], d, CpuPct);
  }

  lemma CpuSpellings()
    ensures Spells("CPU_PCT", CpuPct) && Spells("cpu_pct", CpuPct)
  {
    assert Fold("CPU_PCT") == "CPU_PCT";
    assert Fold("cpu_pct") == "CPU_PCT";
  }

  lemma OnlyCpuIsSpelled(key: string)
    requires Spells(key, CpuPct)
    ensures forall rt :: Spells(key, rt) ==> rt == CpuPct
  {
    forall rt | Spells(key, rt)
      ensures rt == CpuPct
    {
      var x, y := Fold(RuleName(rt)), Fold(RuleName(CpuPct));
      assert |x| == |y| && x[0] == y[0];
      assert x[0] == FoldChar(RuleName(rt)[0]) && y[0] == FoldChar('c');
    }
  }

  lemma TwoSpellingsMisleadDashboard(d: DeviceScopeOf, a: Id)
    ensures !Agree([TenantPolicy(a, [Entry("CPU_PCT", Only(50.0, Given("critical"))), Entry("cpu_pct", Only(90.0, Missing))])], d, CpuPct)
  {
    var p := TenantPolicy(a, [Entry("CPU_PCT", Only(50.0, Given("critical"))), Entry("cpu_pct", Only(90.0, Missing))]);
    var e := p.rules.entries;
    assert e[..1] == [e[0]] && [e[0]][..0] == [];
    CpuSpellings();
    assert Gathered([e[0]], CpuPct) == Some(e[0].raw.fields);
    assert Gathered(e, CpuPct) == Some(Overwrite(e[0].raw.fields, e[1].raw.fields));
    assert AsMap(e)["cpu_pct"] == e[1].raw;
    assert |"critical"| != |""|;
    assert !Truthful(p, CpuPct);
    assert Wins(DashMarks([p], d, "cpu_pct"), 0);
    DashboardAgreesIff([p], d, CpuPct);
  }
}
