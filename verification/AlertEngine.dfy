/**
 The alert reconciler (server/internal/worker/alerts.go:28-119) over the alert and outbox tables
 (server/internal/store/alerts.go): one pass fires and resolves alerts and queues their
 notifications in a single transaction.

 Alerts are never deleted by the application role, so an alert's id is its
 position in `alerts`.  The schema stores only `resolved`; the cause carried by `Resolved` is
 the history the outbox law needs.
 */
module AlertEngine {
  import opened Wrappers
  import opened Identifiers
  import opened Policies
  import opened AlertRules

  datatype Cause = Cleared | RuleRemoved | Decommissioned

  datatype Status = Firing | Resolved(cause: Cause)

  datatype Alert = Alert(
    device: Uuid, rule: RuleType, key: string,
    policy: Id, severity: string, channels: seq<Id>,
    status: Status)

  datatype Event = FiredEvent | ResolvedEvent

  /** One row of notification_deliveries, before any delivery attempt. */
  datatype Row = Row(alert: nat, channel: Id, event: Event)

  datatype Db = Db(alerts: seq<Alert>, outbox: multiset<Row>, channels: set<Id>)

  /** Everything the pass knows about one active device. */
  datatype Input = Input(now: int, eff: Effective, st: DeviceState)

  function FindingsOf(i: Input): seq<Finding> {
    Findings(i.now, i.eff, i.st)
  }

  predicate IsOpen(i: Input, key: string) {
    exists f :: f in FindingsOf(i) && f.key == key
  }

  predicate HasFiring(alerts: seq<Alert>, key: string) {
    exists k :: 0 <= k < |alerts| && alerts[k].status.Firing? && alerts[k].key == key
  }

  // ---------------------------------------------------------------------
  // The store's statements

  /** EnqueueDeliveries selects each channel that still exists once, however often it is listed. */
  function Rows(existing: set<Id>, id: nat, listed: seq<Id>, event: Event): set<Row> {
    set c | c in existing && c in listed :: Row(id, c, event)
  }

  function Enqueue(db: Db, id: nat, listed: seq<Id>, event: Event): Db {
    db.(outbox := db.outbox + multiset(Rows(db.channels, id, listed, event)))
  }

  function NewAlert(device: Uuid, f: Finding): Alert {
    Alert(device, f.rule, f.key, f.policy, f.severity, f.channels, Firing)
  }

  /** OpenAlert: the partial unique index turns a second firing row for a key into a no-op. */
  function Open(db: Db, device: Uuid, f: Finding): Db {
    if HasFiring(db.alerts, f.key) then db else db.(alerts := db.alerts + [NewAlert(device, f)])
  }

  function FireOne(db: Db, device: Uuid, f: Finding): Db {
    if HasFiring(db.alerts, f.key) then db
    else Enqueue(Open(db, device, f), |db.alerts|, f.channels, FiredEvent)
  }

  function Fire(db: Db, device: Uuid, fs: seq<Finding>): Db {
    if fs == [] then db else FireOne(Fire(db, device, fs[..|fs| - 1]), device, fs[|fs| - 1])
  }

  /** What a pass decides about an alert that was firing when the device's turn came. */
  function Verdict(i: Input, a: Alert): Option<Cause> {
    if IsOpen(i, a.key) then None
    else if !Configured(i.eff, a.rule) then Some(RuleRemoved)
    else if Assessed(i.eff, i.st, a.rule) then Some(Cleared)
    else None
  }

  function Closed(i: Input, a: Alert): Alert {
    if a.status.Firing? && Verdict(i, a).Some? then a.(status := Resolved(Verdict(i, a).value)) else a
  }

  /** The alerts of `ids` closed or left as the verdict says, with their "resolved" notices. */
  function Close(db: Db, i: Input, ids: set<nat>): Db {
    Db(seq(|db.alerts|, k requires 0 <= k < |db.alerts| => if k in ids then Closed(i, db.alerts[k]) else db.alerts[k]),
       db.outbox + multiset(ClearedRows(db, i, ids)),
       db.channels)
  }

  function ClearedRows(db: Db, i: Input, ids: set<nat>): set<Row> {
    set k, c | k in ids && k < |db.alerts| && c in db.channels && c in db.alerts[k].channels
               && db.alerts[k].status.Firing? && Verdict(i, db.alerts[k]) == Some(Cleared)
      :: Row(k, c, ResolvedEvent)
  }

  function FiringIds(db: Db, device: Uuid): set<nat> {
    set k: nat | k < |db.alerts| && db.alerts[k].status.Firing? && db.alerts[k].device == device
  }

  function DevicePass(db: Db, i: Input): Db {
    Close(Fire(db, i.st.device, FindingsOf(i)), i, FiringIds(db, i.st.device))
  }

  function PassDevices(db: Db, inputs: seq<Input>): Db {
    if inputs == [] then db else DevicePass(PassDevices(db, inputs[..|inputs| - 1]), inputs[|inputs| - 1])
  }

  /** ResolveAlertsForDecommissioned. */
  function CloseInactive(db: Db, active: set<Uuid>): Db {
    db.(alerts := seq(|db.alerts|, k requires 0 <= k < |db.alerts| =>
          if db.alerts[k].status.Firing? && db.alerts[k].device !in active
          then db.alerts[k].(status := Resolved(Decommissioned)) else db.alerts[k]))
  }

  /** One evaluation pass. */
  function Pass(db: Db, active: set<Uuid>, inputs: seq<Input>): Db {
    PassDevices(CloseInactive(db, active), inputs)
  }

  /** The inputs are the active devices, each once. */
  ghost predicate Covers(active: set<Uuid>, inputs: seq<Input>) {
    && (forall k :: 0 <= k < |inputs| ==> inputs[k].st.device in active)
    && (forall d :: d in active ==> exists k :: 0 <= k < |inputs| && inputs[k].st.device == d)
    && (forall k, l :: 0 <= k < l < |inputs| ==> inputs[k].st.device != inputs[l].st.device)
  }

  // ---------------------------------------------------------------------
  // The conservation law: what any part of a pass does to the tables

  /** An alert row only ever moves from firing to resolved; nothing else in it changes. */
  predicate Evolves(a: Alert, b: Alert) {
    b == a || (a.status.Firing? && b.status.Resolved? && b == a.(status := b.status))
  }

  predicate FiredBetween(a: Db, b: Db, r: Row) {
    r.event.FiredEvent? && |a.alerts| <= r.alert < |b.alerts| && r.channel in b.alerts[r.alert].channels && r.channel in b.channels
  }

  predicate ClearedBetween(a: Db, b: Db, r: Row) {
    && r.event.ResolvedEvent? && r.alert < |a.alerts| && r.alert < |b.alerts|
    && a.alerts[r.alert].status.Firing? && b.alerts[r.alert].status == Resolved(Cleared)
    && r.channel in b.alerts[r.alert].channels && r.channel in b.channels
  }

  function One(b: bool): nat { if b then 1 else 0 }

  /**
   New alerts start firing, old ones only resolve, and the outbox gains exactly one "fired" row
   per new alert and existing channel and one "resolved" row per alert closed as cleared.
   */
  ghost predicate Moves(a: Db, b: Db) {
    && a.channels == b.channels && |a.alerts| <= |b.alerts|
    && (forall k :: 0 <= k < |a.alerts| ==> Evolves(a.alerts[k], b.alerts[k]))
    && (forall k :: |a.alerts| <= k < |b.alerts| ==> b.alerts[k].status.Firing?)
    && (forall r :: b.outbox[r] == a.outbox[r] + One(FiredBetween(a, b, r)) + One(ClearedBetween(a, b, r)))
  }

  /** Closing never touches an alert opened after the ids were listed, so the law composes. */
  lemma MovesCompose(a: Db, b: Db, c: Db)
    requires Moves(a, b) && Moves(b, c)
    requires forall k :: |a.alerts| <= k < |b.alerts| ==> c.alerts[k].status.Firing?
    ensures Moves(a, c)
  {
  }

  lemma FireOneMoves(db: Db, device: Uuid, f: Finding)
    ensures Moves(db, FireOne(db, device, f))
  {
  }

  lemma {:induction false} FireMoves(db: Db, device: Uuid, fs: seq<Finding>)
    ensures Moves(db, Fire(db, device, fs)) && db.alerts <= Fire(db, device, fs).alerts
    ensures forall k :: |db.alerts| <= k < |Fire(db, device, fs).alerts| ==>
              exists f :: f in fs && Fire(db, device, fs).alerts[k] == NewAlert(device, f)
  {
    if fs != [] {
      var n := |fs| - 1;
      FireMoves(db, device, fs[..n]);
      FireOneMoves(Fire(db, device, fs[..n]), device, fs[n]);
      MovesCompose(db, Fire(db, device, fs[..n]), Fire(db, device, fs));
    }
  }

  lemma CloseMoves(db: Db, i: Input, ids: set<nat>)
    ensures Moves(db, Close(db, i, ids))
  {
  }

  lemma DevicePassMoves(db: Db, i: Input)
    ensures Moves(db, DevicePass(db, i))
  {
    var fired := Fire(db, i.st.device, FindingsOf(i));
    FireMoves(db, i.st.device, FindingsOf(i));
    CloseMoves(fired, i, FiringIds(db, i.st.device));
    MovesCompose(db, fired, DevicePass(db, i));
  }

  lemma CloseInactiveMoves(db: Db, active: set<Uuid>)
    ensures Moves(db, CloseInactive(db, active))
  {
  }

  /** The alert is a new one, for a finding of this input. */
  ghost predicate OpenedBy(i: Input, a: Alert) {
    exists f :: f in FindingsOf(i) && a == NewAlert(i.st.device, f)
  }

  /** A device's turn leaves every alert of every other device exactly as it was. */
  lemma DevicePassFrame(db: Db, i: Input)
    ensures |db.alerts| <= |DevicePass(db, i).alerts|
    ensures forall k :: 0 <= k < |db.alerts| && db.alerts[k].device != i.st.device ==> DevicePass(db, i).alerts[k] == db.alerts[k]
    ensures forall k :: |db.alerts| <= k < |DevicePass(db, i).alerts| ==> OpenedBy(i, DevicePass(db, i).alerts[k])
  {
    var fired := Fire(db, i.st.device, FindingsOf(i));
    FireMoves(db, i.st.device, FindingsOf(i));
    forall k | |db.alerts| <= k < |fired.alerts|
      ensures OpenedBy(i, DevicePass(db, i).alerts[k])
    {
      var f :| f in FindingsOf(i) && fired.alerts[k] == NewAlert(i.st.device, f);
      assert DevicePass(db, i).alerts[k] == fired.alerts[k];
    }
  }

  lemma {:induction false} PassDevicesMoves(db: Db, inputs: seq<Input>)
    requires forall k, l :: 0 <= k < l < |inputs| ==> inputs[k].st.device != inputs[l].st.device
    ensures Moves(db, PassDevices(db, inputs))
    ensures forall k :: |db.alerts| <= k < |PassDevices(db, inputs).alerts| ==> IsFound(inputs, PassDevices(db, inputs).alerts[k])
  {
    if inputs != [] {
      var n := |inputs| - 1;
      var mid, end := PassDevices(db, inputs[..n]), PassDevices(db, inputs);
      PassDevicesMoves(db, inputs[..n]);
      DevicePassMoves(mid, inputs[n]);
      DevicePassFrame(mid, inputs[n]);
      forall k | |db.alerts| <= k < |mid.alerts|
        ensures end.alerts[k] == mid.alerts[k] && IsFound(inputs, end.alerts[k])
      {
        FoundInPrefix(inputs, mid.alerts[k]);
      }
      MovesCompose(db, mid, end);
    }
  }

  /** The alert was opened for a finding of one of the inputs. */
  ghost predicate IsFound(inputs: seq<Input>, a: Alert) {
    exists l :: 0 <= l < |inputs| && OpenedBy(inputs[l], a)
  }

  lemma FoundInPrefix(inputs: seq<Input>, a: Alert)
    requires inputs != [] && IsFound(inputs[..|inputs| - 1], a)
    requires forall k, l :: 0 <= k < l < |inputs| ==> inputs[k].st.device != inputs[l].st.device
    ensures IsFound(inputs, a) && a.device != inputs[|inputs| - 1].st.device
  {
    var l :| 0 <= l < |inputs| - 1 && OpenedBy(inputs[..|inputs| - 1][l], a);
    assert inputs[l] == inputs[..|inputs| - 1][l];
  }

  /** The conservation law holds of a whole pass. */
  lemma {:induction false} PassMoves(db: Db, active: set<Uuid>, inputs: seq<Input>)
    requires Covers(active, inputs)
    ensures Moves(db, Pass(db, active, inputs))
  {
    CloseInactiveMoves(db, active);
    PassDevicesMoves(CloseInactive(db, active), inputs);
    MovesCompose(db, CloseInactive(db, active), Pass(db, active, inputs));
  }

  // ---------------------------------------------------------------------
  // Invariants

  ghost predicate WellKeyed(a: Alert) {
    exists e :: a.key == DedupKey(a.device, a.rule, e)
  }

  lemma KeyNamesDevice(a: Alert, b: Alert)
    requires WellKeyed(a) && WellKeyed(b) && a.key == b.key
    ensures a.device == b.device && a.rule == b.rule
  {
    var e :| a.key == DedupKey(a.device, a.rule, e);
    var g :| b.key == DedupKey(b.device, b.rule, g);
    DedupKeyInjective(a.device, a.rule, e, b.device, b.rule, g);
  }

  /** At most one firing alert per key, and every key is the key of its row's condition. */
  ghost predicate KeysOk(alerts: seq<Alert>) {
    && (forall k :: 0 <= k < |alerts| ==> WellKeyed(alerts[k]))
    && (forall k, l :: 0 <= k < l < |alerts| && alerts[k].status.Firing? && alerts[l].status.Firing? ==> alerts[k].key != alerts[l].key)
  }

  /** At most one "fired" and one "resolved" row per alert and channel, the latter only for cleared alerts. */
  ghost predicate OutboxOk(db: Db) {
    forall r :: r in db.outbox ==>
      && db.outbox[r] == 1
      && r.alert < |db.alerts| && r.channel in db.alerts[r.alert].channels
      && (r.event.ResolvedEvent? ==> db.alerts[r.alert].status == Resolved(Cleared))
  }

  ghost predicate Inv(db: Db) {
    KeysOk(db.alerts) && OutboxOk(db)
  }

  lemma MovesKeepOutboxOk(a: Db, b: Db)
    requires OutboxOk(a) && Moves(a, b)
    ensures OutboxOk(b)
  {
  }

  /** Closing alerts keeps the keys; so does any step that only closes. */
  lemma ClosingKeepsKeysOk(a: seq<Alert>, b: seq<Alert>)
    requires KeysOk(a) && |a| == |b| && forall k :: 0 <= k < |a| ==> Evolves(a[k], b[k])
    ensures KeysOk(b)
  {
  }

  ghost predicate ForDevice(fs: seq<Finding>, device: Uuid) {
    forall f :: f in fs ==> f.key == DedupKey(device, f.rule, f.extra)
  }

  lemma {:induction false} FireKeepsKeysOk(db: Db, device: Uuid, fs: seq<Finding>)
    requires KeysOk(db.alerts) && ForDevice(fs, device)
    ensures KeysOk(Fire(db, device, fs).alerts)
  {
    if fs != [] {
      var n := |fs| - 1;
      FireKeepsKeysOk(db, device, fs[..n]);
      OpenKeepsKeysOk(Fire(db, device, fs[..n]), device, fs[n]);
    }
  }

  lemma OpenKeepsKeysOk(db: Db, device: Uuid, f: Finding)
    requires KeysOk(db.alerts) && f.key == DedupKey(device, f.rule, f.extra)
    ensures KeysOk(Open(db, device, f).alerts)
  {
  }

  lemma InputIsForDevice(i: Input)
    ensures ForDevice(FindingsOf(i), i.st.device)
  {
    FindingsAreWhatHolds(i.now, i.eff, i.st, Offline, "");
  }

  lemma DevicePassKeepsInv(db: Db, i: Input)
    requires Inv(db)
    ensures Inv(DevicePass(db, i))
  {
    DevicePassMoves(db, i);
    MovesKeepOutboxOk(db, DevicePass(db, i));
    InputIsForDevice(i);
    FireKeepsKeysOk(db, i.st.device, FindingsOf(i));
    ClosingKeepsKeysOk(Fire(db, i.st.device, FindingsOf(i)).alerts, DevicePass(db, i).alerts);
  }

  lemma {:induction false} PassDevicesKeepInv(db: Db, inputs: seq<Input>)
    requires Inv(db)
    ensures Inv(PassDevices(db, inputs))
  {
    if inputs != [] {
      PassDevicesKeepInv(db, inputs[..|inputs| - 1]);
      DevicePassKeepsInv(PassDevices(db, inputs[..|inputs| - 1]), inputs[|inputs| - 1]);
    }
  }

  lemma {:induction false} PassKeepsInv(db: Db, active: set<Uuid>, inputs: seq<Input>)
    requires Inv(db)
    ensures Inv(Pass(db, active, inputs))
  {
    CloseInactiveMoves(db, active);
    MovesKeepOutboxOk(db, CloseInactive(db, active));
    ClosingKeepsKeysOk(db.alerts, CloseInactive(db, active).alerts);
    PassDevicesKeepInv(CloseInactive(db, active), inputs);
  }

  // ---------------------------------------------------------------------
  // Where a pass ends

  /** The device needs nothing more: its findings are firing, and its verdicts leave all open. */
  ghost predicate Settled(db: Db, i: Input) {
    && (forall f :: f in FindingsOf(i) ==> HasFiring(db.alerts, f.key))
    && (forall k :: 0 <= k < |db.alerts| && db.alerts[k].status.Firing? && db.alerts[k].device == i.st.device ==>
          Verdict(i, db.alerts[k]).None?)
  }

  lemma {:induction false} FireOpensAll(db: Db, device: Uuid, fs: seq<Finding>)
    ensures forall f :: f in fs ==> HasFiring(Fire(db, device, fs).alerts, f.key)
  {
    if fs != [] {
      var n := |fs| - 1;
      var mid, end := Fire(db, device, fs[..n]), Fire(db, device, fs);
      FireOpensAll(db, device, fs[..n]);
      forall f | f in fs
        ensures HasFiring(end.alerts, f.key)
      {
        if f in fs[..n] {
          var k :| 0 <= k < |mid.alerts| && mid.alerts[k].status.Firing? && mid.alerts[k].key == f.key;
          assert end.alerts[k] == mid.alerts[k];
        } else if !HasFiring(mid.alerts, f.key) {
          assert end.alerts[|mid.alerts|] == NewAlert(device, f);
        }
      }
    }
  }

  lemma DevicePassSettles(db: Db, i: Input)
    ensures Settled(DevicePass(db, i), i)
  {
    var fired, end := Fire(db, i.st.device, FindingsOf(i)), DevicePass(db, i);
    FireMoves(db, i.st.device, FindingsOf(i));
    FireOpensAll(db, i.st.device, FindingsOf(i));
    forall f | f in FindingsOf(i)
      ensures HasFiring(end.alerts, f.key)
    {
      var k :| 0 <= k < |fired.alerts| && fired.alerts[k].status.Firing? && fired.alerts[k].key == f.key;
      assert IsOpen(i, fired.alerts[k].key);
      assert end.alerts[k] == fired.alerts[k];
    }
    forall k | 0 <= k < |end.alerts| && end.alerts[k].status.Firing? && end.alerts[k].device == i.st.device
      ensures Verdict(i, end.alerts[k]).None?
    {
      if |db.alerts| <= k {
        var f :| f in FindingsOf(i) && fired.alerts[k] == NewAlert(i.st.device, f);
        assert IsOpen(i, end.alerts[k].key);
      }
    }
  }

  /** A key of one device stays firing while another device has its turn. */
  lemma OthersKeepFiring(db: Db, device: Uuid, f: Finding, j: Input)
    requires KeysOk(db.alerts) && HasFiring(db.alerts, f.key)
    requires f.key == DedupKey(device, f.rule, f.extra) && device != j.st.device
    ensures HasFiring(DevicePass(db, j).alerts, f.key)
  {
    DevicePassFrame(db, j);
    var k :| 0 <= k < |db.alerts| && db.alerts[k].status.Firing? && db.alerts[k].key == f.key;
    assert WellKeyed(NewAlert(device, f));
    KeyNamesDevice(db.alerts[k], NewAlert(device, f));
    assert DevicePass(db, j).alerts[k] == db.alerts[k];
  }

  lemma OthersStaySettled(db: Db, i: Input, j: Input)
    requires KeysOk(db.alerts) && Settled(db, i) && i.st.device != j.st.device
    ensures Settled(DevicePass(db, j), i)
  {
    InputIsForDevice(i);
    forall f | f in FindingsOf(i)
      ensures HasFiring(DevicePass(db, j).alerts, f.key)
    {
      OthersKeepFiring(db, i.st.device, f, j);
    }
    DevicePassFrame(db, j);
    DevicePassMoves(db, j);
    var end := DevicePass(db, j);
    forall k | 0 <= k < |end.alerts| && end.alerts[k].status.Firing? && end.alerts[k].device == i.st.device
      ensures Verdict(i, end.alerts[k]).None?
    {
      assert k < |db.alerts| ==> Evolves(db.alerts[k], end.alerts[k]);
    }
  }

  lemma {:induction false} FireOfFiringIsNoop(db: Db, device: Uuid, fs: seq<Finding>)
    requires forall f :: f in fs ==> HasFiring(db.alerts, f.key)
    ensures Fire(db, device, fs) == db
  {
    if fs != [] {
      FireOfFiringIsNoop(db, device, fs[..|fs| - 1]);
    }
  }

  lemma SettledPassIsNoop(db: Db, i: Input)
    requires Settled(db, i)
    ensures DevicePass(db, i) == db
  {
    FireOfFiringIsNoop(db, i.st.device, FindingsOf(i));
    var end := DevicePass(db, i);
    assert ClearedRows(db, i, FiringIds(db, i.st.device)) == {};
    assert end.alerts == db.alerts;
    assert end.outbox == db.outbox;
  }

  lemma {:induction false} PassDevicesSettle(db: Db, inputs: seq<Input>, k: nat)
    requires Inv(db) && k < |inputs|
    requires forall k, l :: 0 <= k < l < |inputs| ==> inputs[k].st.device != inputs[l].st.device
    ensures Settled(PassDevices(db, inputs), inputs[k])
  {
    var n := |inputs| - 1;
    var mid := PassDevices(db, inputs[..n]);
    if k == n {
      DevicePassSettles(mid, inputs[n]);
    } else {
      PassDevicesSettle(db, inputs[..n], k);
      PassDevicesKeepInv(db, inputs[..n]);
      assert inputs[..n][k] == inputs[k];
      OthersStaySettled(mid, inputs[k], inputs[n]);
    }
  }

  /** A whole pass settles every active device. */
  lemma {:induction false} PassSettles(db: Db, active: set<Uuid>, inputs: seq<Input>, k: nat)
    requires Inv(db) && Covers(active, inputs) && k < |inputs|
    ensures Settled(Pass(db, active, inputs), inputs[k])
  {
    CloseInactiveMoves(db, active);
    MovesKeepOutboxOk(db, CloseInactive(db, active));
    ClosingKeepsKeysOk(db.alerts, CloseInactive(db, active).alerts);
    PassDevicesSettle(CloseInactive(db, active), inputs, k);
  }

  lemma {:induction false} SettledPassDevicesIsNoop(db: Db, inputs: seq<Input>)
    requires forall k :: 0 <= k < |inputs| ==> Settled(db, inputs[k])
    ensures PassDevices(db, inputs) == db
  {
    if inputs != [] {
      SettledPassDevicesIsNoop(db, inputs[..|inputs| - 1]);
      SettledPassIsNoop(db, inputs[|inputs| - 1]);
    }
  }

  ghost predicate NothingFiresOn(db: Db, active: set<Uuid>) {
    forall k :: 0 <= k < |db.alerts| && db.alerts[k].status.Firing? ==> db.alerts[k].device in active
  }

  /** After a pass no alert is firing on a device that is not active. */
  lemma {:induction false} NoAlertOnInactiveDevice(db: Db, active: set<Uuid>, inputs: seq<Input>)
    requires Covers(active, inputs)
    ensures NothingFiresOn(Pass(db, active, inputs), active)
  {
    var mid, end := CloseInactive(db, active), Pass(db, active, inputs);
    PassDevicesMoves(mid, inputs);
    forall k | 0 <= k < |end.alerts| && end.alerts[k].status.Firing?
      ensures end.alerts[k].device in active
    {
      if k < |mid.alerts| {
        assert Evolves(mid.alerts[k], end.alerts[k]);
      }
    }
  }

  /** An immediate second pass on the same inputs changes no alert and queues no notification. */
  lemma {:induction false} SecondPassIsNoop(db: Db, active: set<Uuid>, inputs: seq<Input>)
    requires Inv(db) && Covers(active, inputs)
    ensures Pass(Pass(db, active, inputs), active, inputs) == Pass(db, active, inputs)
  {
    var end := Pass(db, active, inputs);
    forall k | 0 <= k < |inputs|
      ensures Settled(end, inputs[k])
    {
      PassSettles(db, active, inputs, k);
    }
    NoAlertOnInactiveDevice(db, active, inputs);
    assert CloseInactive(end, active).alerts == end.alerts;
    SettledPassDevicesIsNoop(end, inputs);
  }

  // ---------------------------------------------------------------------
  // The exact post-state

  ghost predicate FiringOn(db: Db, device: Uuid, key: string) {
    exists k :: 0 <= k < |db.alerts| && db.alerts[k].status.Firing? && db.alerts[k].device == device && db.alerts[k].key == key
  }

  /** Firing before the pass, still configured, but its data was stale so it was not assessed. */
  ghost predicate StaleOn(db: Db, i: Input, key: string) {
    exists k :: 0 <= k < |db.alerts| && db.alerts[k].status.Firing? && db.alerts[k].device == i.st.device && db.alerts[k].key == key
                && Configured(i.eff, db.alerts[k].rule) && !Assessed(i.eff, i.st, db.alerts[k].rule)
  }

  lemma OtherAlertUntouched(db: Db, i: Input, k: nat)
    requires k < |db.alerts| && db.alerts[k].device != i.st.device
    ensures k < |DevicePass(db, i).alerts| && DevicePass(db, i).alerts[k] == db.alerts[k]
  {
    DevicePassFrame(db, i);
  }

  lemma OwnAlertClosed(db: Db, i: Input, k: nat)
    requires k < |db.alerts| && db.alerts[k].device == i.st.device
    ensures k < |DevicePass(db, i).alerts| && DevicePass(db, i).alerts[k] == Closed(i, db.alerts[k])
  {
    FireMoves(db, i.st.device, FindingsOf(i));
  }

  /** An alert that existed before the pass ends as its own device's verdict says. */
  lemma {:induction false} OldAlertAfterPass(db: Db, inputs: seq<Input>, n: nat, k: nat)
    requires n < |inputs| && k < |db.alerts| && db.alerts[k].device == inputs[n].st.device
    requires forall l :: 0 <= l < |inputs| && l != n ==> inputs[l].st.device != inputs[n].st.device
    ensures k < |PassDevices(db, inputs).alerts|
    ensures PassDevices(db, inputs).alerts[k] == Closed(inputs[n], db.alerts[k])
  {
    var m := |inputs| - 1;
    var mid := PassDevices(db, inputs[..m]);
    if n == m {
      UntouchedBefore(db, inputs[..m], k, inputs[m].st.device);
      OwnAlertClosed(mid, inputs[m], k);
    } else {
      assert inputs[..m][n] == inputs[n];
      OldAlertAfterPass(db, inputs[..m], n, k);
      OtherAlertUntouched(mid, inputs[m], k);
    }
  }

  lemma {:induction false} UntouchedBefore(db: Db, inputs: seq<Input>, k: nat, device: Uuid)
    requires k < |db.alerts| && db.alerts[k].device == device
    requires forall l :: 0 <= l < |inputs| ==> inputs[l].st.device != device
    ensures k < |PassDevices(db, inputs).alerts| && PassDevices(db, inputs).alerts[k] == db.alerts[k]
  {
    if inputs != [] {
      var m := |inputs| - 1;
      UntouchedBefore(db, inputs[..m], k, device);
      OtherAlertUntouched(PassDevices(db, inputs[..m]), inputs[m], k);
    }
  }

  lemma OldAlertAfterWholePass(db: Db, active: set<Uuid>, inputs: seq<Input>, n: nat, k: nat)
    requires Covers(active, inputs) && n < |inputs| && k < |db.alerts| && db.alerts[k].device == inputs[n].st.device
    ensures k < |Pass(db, active, inputs).alerts| && Pass(db, active, inputs).alerts[k] == Closed(inputs[n], db.alerts[k])
  {
    OldAlertAfterPass(CloseInactive(db, active), inputs, n, k);
  }

  /**
   The firing keys of an active device after a pass are exactly the keys of its current
   findings, plus the keys that were firing under a rule that is still configured but could not
   be assessed: stale data never resolves an alert.
   */
  lemma {:induction false} FiringAfterPass(db: Db, active: set<Uuid>, inputs: seq<Input>, n: nat, key: string)
    requires Inv(db) && Covers(active, inputs) && n < |inputs|
    ensures FiringOn(Pass(db, active, inputs), inputs[n].st.device, key) <==> IsOpen(inputs[n], key) || StaleOn(db, inputs[n], key)
  {
    var i, end := inputs[n], Pass(db, active, inputs);
    if k :| 0 <= k < |end.alerts| && end.alerts[k].status.Firing? && end.alerts[k].device == i.st.device && end.alerts[k].key == key {
      WhyFiring(db, active, inputs, n, k);
    }
    if IsOpen(i, key) {
      PassSettles(db, active, inputs, n);
      PassKeepsInv(db, active, inputs);
      OpenKeyIsFiringOnDevice(end, i, key);
    } else if StaleOn(db, i, key) {
      StaleStaysFiring(db, active, inputs, n, key);
    }
  }

  /** An alert still firing after the pass belongs to a finding, or was not assessed. */
  lemma WhyFiring(db: Db, active: set<Uuid>, inputs: seq<Input>, n: nat, k: nat)
    requires Covers(active, inputs) && n < |inputs| && k < |Pass(db, active, inputs).alerts|
    requires var a := Pass(db, active, inputs).alerts[k]; a.status.Firing? && a.device == inputs[n].st.device
    ensures IsOpen(inputs[n], Pass(db, active, inputs).alerts[k].key) || StaleOn(db, inputs[n], Pass(db, active, inputs).alerts[k].key)
  {
    if k < |db.alerts| {
      PassMoves(db, active, inputs);
      assert Evolves(db.alerts[k], Pass(db, active, inputs).alerts[k]);
      OldAlertAfterWholePass(db, active, inputs, n, k);
    } else {
      PassDevicesMoves(CloseInactive(db, active), inputs);
      assert IsFound(inputs, Pass(db, active, inputs).alerts[k]);
    }
  }

  lemma StaleStaysFiring(db: Db, active: set<Uuid>, inputs: seq<Input>, n: nat, key: string)
    requires Covers(active, inputs) && n < |inputs| && StaleOn(db, inputs[n], key)
    ensures FiringOn(Pass(db, active, inputs), inputs[n].st.device, key)
  {
    var i := inputs[n];
    var k :| 0 <= k < |db.alerts| && db.alerts[k].status.Firing? && db.alerts[k].device == i.st.device && db.alerts[k].key == key
             && Configured(i.eff, db.alerts[k].rule) && !Assessed(i.eff, i.st, db.alerts[k].rule);
    OldAlertAfterWholePass(db, active, inputs, n, k);
    assert Pass(db, active, inputs).alerts[k] == db.alerts[k];
  }

  lemma OpenKeyIsFiringOnDevice(db: Db, i: Input, key: string)
    requires Inv(db) && Settled(db, i) && IsOpen(i, key)
    ensures FiringOn(db, i.st.device, key)
  {
    var f :| f in FindingsOf(i) && f.key == key;
    InputIsForDevice(i);
    var k :| 0 <= k < |db.alerts| && db.alerts[k].status.Firing? && db.alerts[k].key == key;
    assert WellKeyed(NewAlert(i.st.device, f));
    KeyNamesDevice(db.alerts[k], NewAlert(i.st.device, f));
  }

  /** And the keys of the findings are the keys of the conditions that hold. */
  lemma OpenMeansHolds(i: Input, rt: RuleType, extra: string)
    ensures IsOpen(i, DedupKey(i.st.device, rt, extra)) <==> Holds(i.now, i.eff, i.st, rt, extra)
  {
    FindingsAreWhatHolds(i.now, i.eff, i.st, rt, extra);
    if f :| f in FindingsOf(i) && f.key == DedupKey(i.st.device, rt, extra) {
      DedupKeyInjective(i.st.device, f.rule, f.extra, i.st.device, rt, extra);
    }
  }

  // ---------------------------------------------------------------------
  // What becomes of each alert, told by the policy and the telemetry alone

  /** The condition the key names holds now. */
  ghost predicate StillHolds(i: Input, key: string) {
    exists rt, extra :: key == DedupKey(i.st.device, rt, extra) && Holds(i.now, i.eff, i.st, rt, extra)
  }

  ghost predicate RuleThere(eff: Effective, rt: RuleType) {
    match rt
    case CpuPct => eff.cpuPct.Some?
    case MemPct => eff.memPct.Some?
    case DiskPct => eff.diskPct.Some?
    case Offline => eff.offline.Some?
    case ServiceDown => eff.serviceDown.Some?
  }

  /** The rule can be judged: stale statistics judge no percentage, a stale inventory no service. */
  ghost predicate DataThere(st: DeviceState, rt: RuleType) {
    match rt
    case CpuPct => st.hasRecentStats
    case MemPct => st.hasRecentStats
    case DiskPct => st.hasRecentStats
    case Offline => true
    case ServiceDown => st.servicesFresh
  }

  /**
   The fate of an alert that was firing when its device's turn came, and its "resolved" notice on
   one channel: it stays while its condition holds or cannot be judged; it closes silently
   when its rule is gone; and only when fresh data shows the condition gone does it close
   with one notice per listed channel that exists.
   */
  ghost predicate Fate(i: Input, before: Alert, after: Alert, noticed: bool, listens: bool) {
    if StillHolds(i, before.key) then after == before && !noticed
    else if !RuleThere(i.eff, before.rule) then after == before.(status := Resolved(RuleRemoved)) && !noticed
    else if DataThere(i.st, before.rule) then after == before.(status := Resolved(Cleared)) && (noticed <==> listens)
    else after == before && !noticed
  }

  lemma OpenIsStillHolds(i: Input, key: string)
    ensures IsOpen(i, key) <==> StillHolds(i, key)
  {
    if f :| f in FindingsOf(i) && f.key == key {
      FindingsAreWhatHolds(i.now, i.eff, i.st, f.rule, f.extra);
      assert key == DedupKey(i.st.device, f.rule, f.extra);
    }
    if rt, extra :| key == DedupKey(i.st.device, rt, extra) && Holds(i.now, i.eff, i.st, rt, extra) {
      OpenMeansHolds(i, rt, extra);
    }
  }

  /** The verdict is that fate. */
  lemma VerdictIsFate(i: Input, a: Alert, listens: bool)
    requires a.status.Firing?
    ensures Fate(i, a, Closed(i, a), Closed(i, a).status == Resolved(Cleared) && listens, listens)
  {
    OpenIsStillHolds(i, a.key);
    assert RuleThere(i.eff, a.rule) <==> Configured(i.eff, a.rule);
    assert Assessed(i.eff, i.st, a.rule) <==> RuleThere(i.eff, a.rule) && DataThere(i.st, a.rule);
  }

  /** How many "resolved" rows for the alert and the channel one table has more than the other. */
  function Notices(a: Db, b: Db, k: nat, c: Id): int {
    b.outbox[Row(k, c, ResolvedEvent)] as int - a.outbox[Row(k, c, ResolvedEvent)] as int
  }

  /** One device's turn: every firing alert of the device meets its fate, no other alert of the table is touched. */
  lemma TurnDecidesFates(db: Db, i: Input, k: nat, c: Id)
    requires k < |db.alerts|
    ensures k < |DevicePass(db, i).alerts|
    ensures var a, b := db.alerts[k], DevicePass(db, i).alerts[k];
      var notices := Notices(db, DevicePass(db, i), k, c);
      if a.status.Firing? && a.device == i.st.device then
        0 <= notices <= 1 && Fate(i, a, b, notices == 1, c in a.channels && c in db.channels)
      else
        b == a && notices == 0
  {
    DevicePassMoves(db, i);
    var a := db.alerts[k];
    if a.device == i.st.device {
      OwnAlertClosed(db, i, k);
      if a.status.Firing? {
        VerdictIsFate(i, a, c in a.channels && c in db.channels);
      }
    } else {
      OtherAlertUntouched(db, i, k);
    }
  }

  /**
   The whole pass: the firing alerts of each active device meet the fate its telemetry and policy
   decide; alerts of a device that is no longer active close silently; closed ones stay.
   */
  lemma PassDecidesFates(db: Db, active: set<Uuid>, inputs: seq<Input>, n: nat, k: nat, c: Id)
    requires Covers(active, inputs) && k < |db.alerts|
    ensures k < |Pass(db, active, inputs).alerts|
    ensures var a, b := db.alerts[k], Pass(db, active, inputs).alerts[k];
      var notices := Notices(db, Pass(db, active, inputs), k, c);
      if a.status.Resolved? then b == a && notices == 0
      else if a.device !in active then b == a.(status := Resolved(Decommissioned)) && notices == 0
      else n < |inputs| && inputs[n].st.device == a.device ==>
             0 <= notices <= 1 && Fate(inputs[n], a, b, notices == 1, c in a.channels && c in db.channels)
  {
    PassMoves(db, active, inputs);
    var a, b := db.alerts[k], Pass(db, active, inputs).alerts[k];
    assert Evolves(a, b);
    if a.status.Resolved? {
    } else if a.device !in active {
      UntouchedBefore(CloseInactive(db, active), inputs, k, a.device);
    } else if n < |inputs| && inputs[n].st.device == a.device {
      OldAlertAfterWholePass(db, active, inputs, n, k);
      VerdictIsFate(inputs[n], a, c in a.channels && c in db.channels);
    }
  }

  /** A firing alert for a condition that holds on the input's device, with the merged rule's policy, channels and severity. */
  ghost predicate TellsOf(i: Input, a: Alert, extra: string) {
    && a.device == i.st.device && a.status.Firing?
    && a.key == DedupKey(i.st.device, a.rule, extra) && Holds(i.now, i.eff, i.st, a.rule, extra)
    && i.eff.Get(a.rule).Some?
    && a.policy == i.eff.Get(a.rule).value.policy && a.channels == i.eff.Get(a.rule).value.channels
    && a.severity != "" && IsSeverityOf(a.severity, i.eff.Get(a.rule).value.rule)
  }

  /** Every alert a pass opens tells of a condition that holds, and each of its channels that exists gets one "fired" row. */
  lemma NewAlertsTellOfConditions(db: Db, active: set<Uuid>, inputs: seq<Input>, k: nat, c: Id)
    requires Covers(active, inputs) && |db.alerts| <= k < |Pass(db, active, inputs).alerts|
    ensures var a := Pass(db, active, inputs).alerts[k];
      && (exists n, extra :: 0 <= n < |inputs| && TellsOf(inputs[n], a, extra))
      && Pass(db, active, inputs).outbox[Row(k, c, FiredEvent)]
         == db.outbox[Row(k, c, FiredEvent)] + if c in a.channels && c in db.channels then 1 else 0
  {
    PassMoves(db, active, inputs);
    PassDevicesMoves(CloseInactive(db, active), inputs);
    var a := Pass(db, active, inputs).alerts[k];
    assert IsFound(inputs, a);
    var n :| 0 <= n < |inputs| && OpenedBy(inputs[n], a);
    FindingTells(inputs[n], a);
  }

  lemma FindingTells(i: Input, a: Alert)
    requires OpenedBy(i, a)
    ensures exists extra :: TellsOf(i, a, extra)
  {
    var f :| f in FindingsOf(i) && a == NewAlert(i.st.device, f);
    FindingsAreWhatHolds(i.now, i.eff, i.st, f.rule, f.extra);
    assert TellsOf(i, a, f.extra);
  }

  // ---------------------------------------------------------------------
  // Whole runs

  /** A pass on any policies and telemetry, or a change to the notification channels. */
  ghost predicate Step(a: Db, b: Db) {
    || (exists active, inputs :: Covers(active, inputs) && b == Pass(a, active, inputs))
    || (b == a.(channels := b.channels) && a.channels <= b.channels)
    || ChannelDeleted(a, b)
  }

  /** Deleting a channel cascades to its deliveries. */
  ghost predicate ChannelDeleted(a: Db, b: Db) {
    && b.alerts == a.alerts && b.channels <= a.channels
    && forall r: Row :: b.outbox[r] == if r.channel in b.channels then a.outbox[r] else 0
  }

  ghost predicate StepAt(states: seq<Db>, n: int) {
    0 <= n < |states| - 1 && Step(states[n], states[n + 1])
  }

  /** The states a tenant's tables go through, from empty ones. */
  ghost predicate IsRun(states: seq<Db>) {
    && states != [] && states[0].alerts == [] && states[0].outbox == multiset{}
    && forall n :: 0 <= n < |states| - 1 ==> StepAt(states, n)
  }

  lemma StepKeepsInv(a: Db, b: Db)
    requires Inv(a) && Step(a, b)
    ensures Inv(b)
    ensures |a.alerts| <= |b.alerts| && forall k :: 0 <= k < |a.alerts| ==> Evolves(a.alerts[k], b.alerts[k])
  {
    if active, inputs :| Covers(active, inputs) && b == Pass(a, active, inputs) {
      PassKeepsInv(a, active, inputs);
      PassMoves(a, active, inputs);
    }
  }

  /**
   Over every run, at every moment: one firing alert per key, at most one "fired" and one
   "resolved" row per alert and channel, and a "resolved" row only for an alert that a pass
   assessed as cleared, never for a removed rule or a decommissioned device.
   */
  lemma {:induction false} RunKeepsInv(states: seq<Db>, n: nat)
    requires IsRun(states) && n < |states|
    ensures Inv(states[n])
  {
    if n > 0 {
      RunKeepsInv(states, n - 1);
      assert StepAt(states, n - 1);
      StepKeepsInv(states[n - 1], states[n]);
    }
  }

  /**
   An alert goes from firing to resolved at most once: compared with any earlier moment of the
   run it is unchanged or has resolved, and once resolved it never changes again.
   */
  lemma {:induction false} ResolvedIsForever(states: seq<Db>, n: nat, m: nat, k: nat)
    requires IsRun(states) && n <= m < |states| && k < |states[n].alerts|
    ensures k < |states[m].alerts| && Evolves(states[n].alerts[k], states[m].alerts[k])
  {
    if n < m {
      ResolvedIsForever(states, n, m - 1, k);
      StepEvolves(states, m, states[n].alerts[k], k);
    }
  }

  lemma StepEvolves(states: seq<Db>, m: nat, earlier: Alert, k: nat)
    requires IsRun(states) && 0 < m < |states| && k < |states[m - 1].alerts|
    requires Evolves(earlier, states[m - 1].alerts[k])
    ensures k < |states[m].alerts| && Evolves(earlier, states[m].alerts[k])
  {
    RunKeepsInv(states, m - 1);
    assert StepAt(states, m - 1);
    StepKeepsInv(states[m - 1], states[m]);
  }

  /** Between two moments a pass saw fresh data on which the firing alert's condition, still ruled on, no longer held. */
  ghost predicate SeenCleared(a: Db, b: Db, k: nat) {
    exists active, inputs, l :: Covers(active, inputs) && b == Pass(a, active, inputs) && 0 <= l < |inputs| && ClearsOn(a, inputs[l], k)
  }

  ghost predicate ClearsOn(a: Db, i: Input, k: nat) {
    && k < |a.alerts| && a.alerts[k].status.Firing? && a.alerts[k].device == i.st.device
    && !StillHolds(i, a.alerts[k].key) && RuleThere(i.eff, a.alerts[k].rule) && DataThere(i.st, a.alerts[k].rule)
  }

  lemma NewNoticeIsSeen(a: Db, b: Db, k: nat, c: Id)
    requires Inv(a) && Step(a, b) && Row(k, c, ResolvedEvent) in b.outbox && Row(k, c, ResolvedEvent) !in a.outbox
    ensures SeenCleared(a, b, k)
  {
    var active: set<Uuid>, inputs: seq<Input> :| Covers(active, inputs) && b == Pass(a, active, inputs);
    PassMoves(a, active, inputs);
    if a.alerts[k].device in active {
      var l :| 0 <= l < |inputs| && inputs[l].st.device == a.alerts[k].device;
      PassDecidesFates(a, active, inputs, l, k, c);
      assert ClearsOn(a, inputs[l], k);
    } else {
      PassDecidesFates(a, active, inputs, 0, k, c);
    }
  }

  ghost predicate SeenClearedAt(states: seq<Db>, m: int, k: nat) {
    0 <= m < |states| - 1 && SeenCleared(states[m], states[m + 1], k)
  }

  /** Over every run, a "resolved" notice goes out only for an alert that some pass saw cleared on fresh data under its rule. */
  lemma {:induction false} NoticesAreForClearedAlerts(states: seq<Db>, n: nat, k: nat, c: Id)
    requires IsRun(states) && n < |states| && Row(k, c, ResolvedEvent) in states[n].outbox
    ensures exists m :: m < n && SeenClearedAt(states, m, k)
  {
    if Row(k, c, ResolvedEvent) in states[n - 1].outbox {
      NoticesAreForClearedAlerts(states, n - 1, k, c);
    } else {
      RunKeepsInv(states, n - 1);
      assert StepAt(states, n - 1);
      NewNoticeIsSeen(states[n - 1], states[n], k, c);
      assert SeenClearedAt(states, n - 1, k);
    }
  }
}
