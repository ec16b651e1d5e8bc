/**
 The code of the evaluation pass, statement by statement: the alert tables as an object, the
 store calls as its methods, and `EvaluateAlerts` as the worker's nested loops
 (server/internal/worker/alerts.go:32-119, server/internal/store/alerts.go:109-190, 295-305).
 Each is proved to compute the function of AlertEngine that carries its name.
 */
module AlertWorker {
  import opened Wrappers
  import opened Identifiers
  import opened Policies
  import opened AlertRules
  import opened AlertEngine

  /** An active device as CollectEvalDevices returns it, with its telemetry decoded. */
  datatype EvalDevice = EvalDevice(place: DeviceScopeOf, st: DeviceState)

  /** What the pass works on for one device: its telemetry and its effective policy. */
  ghost predicate IsInputOf(i: Input, now: int, policies: seq<Policy>, d: EvalDevice) {
    i.now == now && i.st == d.st && IsEffective(policies, d.place, i.eff)
  }

  ghost predicate AreInputsOf(inputs: seq<Input>, now: int, policies: seq<Policy>, devices: seq<EvalDevice>) {
    && |inputs| == |devices|
    && (inputs != [] ==>
          && AreInputsOf(inputs[..|inputs| - 1], now, policies, devices[..|inputs| - 1])
          && IsInputOf(inputs[|inputs| - 1], now, policies, devices[|inputs| - 1]))
  }

  lemma InputsExtend(inputs: seq<Input>, i: Input, now: int, policies: seq<Policy>, devices: seq<EvalDevice>, n: nat)
    requires n < |devices| && AreInputsOf(inputs, now, policies, devices[..n]) && IsInputOf(i, now, policies, devices[n])
    ensures AreInputsOf(inputs + [i], now, policies, devices[..n + 1])
  {
    assert (inputs + [i])[..n] == inputs && devices[..n + 1][..n] == devices[..n];
  }

  lemma {:induction false} InputAt(inputs: seq<Input>, now: int, policies: seq<Policy>, devices: seq<EvalDevice>, k: nat)
    requires AreInputsOf(inputs, now, policies, devices) && k < |inputs|
    ensures |inputs| == |devices| && IsInputOf(inputs[k], now, policies, devices[k])
  {
    var n := |inputs| - 1;
    if k < n {
      InputAt(inputs[..n], now, policies, devices[..n], k);
    }
  }

  /** CollectEvalDevices lists the active devices, each once. */
  ghost predicate ListsActive(active: set<Uuid>, devices: seq<EvalDevice>) {
    && (forall k :: 0 <= k < |devices| ==> devices[k].st.device in active)
    && (forall d :: d in active ==> exists k :: 0 <= k < |devices| && devices[k].st.device == d)
    && (forall k, l :: 0 <= k < l < |devices| ==> devices[k].st.device != devices[l].st.device)
  }

  /** So the inputs of a pass cover the active devices, as the engine's results ask. */
  lemma InputsCover(active: set<Uuid>, inputs: seq<Input>, now: int, policies: seq<Policy>, devices: seq<EvalDevice>)
    requires AreInputsOf(inputs, now, policies, devices) && ListsActive(active, devices)
    ensures Covers(active, inputs)
  {
    forall k | 0 <= k < |inputs|
      ensures inputs[k].st == devices[k].st
    {
      InputAt(inputs, now, policies, devices, k);
    }
    forall d | d in active
      ensures exists k :: 0 <= k < |inputs| && inputs[k].st.device == d
    {
      var k :| 0 <= k < |devices| && devices[k].st.device == d;
      assert inputs[k].st.device == d;
    }
  }

  /** One turn of the resolving loop on alert `id`. */
  function CloseOne(db: Db, i: Input, id: nat): Db {
    if id >= |db.alerts| then db
    else
      match Verdict(i, db.alerts[id])
      case None => db
      case Some(cause) =>
        var closed := db.(alerts := db.alerts[id := db.alerts[id].(status := Resolved(cause))]);
        if cause.Cleared? then Enqueue(closed, id, db.alerts[id].channels, ResolvedEvent) else closed
  }

  function CloseInTurn(db: Db, i: Input, ids: seq<nat>): Db {
    if ids == [] then db else CloseOne(CloseInTurn(db, i, ids[..|ids| - 1]), i, ids[|ids| - 1])
  }

  function ToSet(ids: seq<nat>): set<nat> {
    set k | k in ids
  }

  /** Distinct ids of firing alerts. */
  ghost predicate AreFiring(alerts: seq<Alert>, ids: seq<nat>) {
    && (forall n :: 0 <= n < |ids| ==> ids[n] < |alerts| && alerts[ids[n]].status.Firing?)
    && (forall k, l :: 0 <= k < l < |ids| ==> ids[k] != ids[l])
  }

  /** Closing the alerts before `n` in the list leaves the one at `n` as it was. */
  lemma {:induction false} NotYetClosed(db: Db, i: Input, ids: seq<nat>, id: nat)
    requires id < |db.alerts| && id !in ids
    ensures |CloseInTurn(db, i, ids).alerts| == |db.alerts| && CloseInTurn(db, i, ids).alerts[id] == db.alerts[id]
  {
    if ids != [] {
      NotYetClosed(db, i, ids[..|ids| - 1], id);
    }
  }

  /** Closing distinct firing alerts one after the other closes them as the verdicts on the start say. */
  lemma {:induction false} CloseInTurnIsClose(db: Db, i: Input, ids: seq<nat>)
    requires AreFiring(db.alerts, ids)
    ensures CloseInTurn(db, i, ids) == Close(db, i, ToSet(ids))
  {
    if ids == [] {
      CloseNone(db, i);
    } else {
      var n := |ids| - 1;
      CloseInTurnIsClose(db, i, ids[..n]);
      ToSetExtend(ids);
      CloseOneMore(db, i, ToSet(ids[..n]), ids[n]);
    }
  }

  lemma CloseNone(db: Db, i: Input)
    ensures Close(db, i, {}) == db && ToSet([]) == {}
  {
    assert ClearedRows(db, i, {}) == {};
    assert Close(db, i, {}).alerts == db.alerts;
  }

  lemma ToSetExtend(ids: seq<nat>)
    requires ids != []
    ensures ToSet(ids) == ToSet(ids[..|ids| - 1]) + {ids[|ids| - 1]}
  {
    assert ids == ids[..|ids| - 1] + [ids[|ids| - 1]];
  }

  lemma CloseOneMore(db: Db, i: Input, ids: set<nat>, id: nat)
    requires id < |db.alerts| && id !in ids && db.alerts[id].status.Firing?
    ensures CloseOne(Close(db, i, ids), i, id) == Close(db, i, ids + {id})
  {
    CloseOneMoreAlerts(db, i, ids, id);
    CloseOneMoreRows(db, i, ids, id);
  }

  /** The notices that closing alert `id` alone adds. */
  function NoticesFor(db: Db, i: Input, id: nat): set<Row>
    requires id < |db.alerts|
  {
    if Verdict(i, db.alerts[id]) == Some(Cleared) then Rows(db.channels, id, db.alerts[id].channels, ResolvedEvent) else {}
  }

  lemma CloseOneRows(db: Db, i: Input, id: nat)
    requires id < |db.alerts|
    ensures CloseOne(db, i, id).outbox == db.outbox + multiset(NoticesFor(db, i, id))
  {
  }

  lemma CloseOneMoreRows(db: Db, i: Input, ids: set<nat>, id: nat)
    requires id < |db.alerts| && id !in ids && db.alerts[id].status.Firing?
    ensures CloseOne(Close(db, i, ids), i, id).outbox == Close(db, i, ids + {id}).outbox
  {
    var mid := Close(db, i, ids);
    assert mid.alerts[id] == db.alerts[id];
    CloseOneRows(mid, i, id);
    assert NoticesFor(mid, i, id) == NoticesFor(db, i, id);
    RowsOneMore(db, i, ids, id);
    UnionAsMultiset(ClearedRows(db, i, ids), NoticesFor(db, i, id));
  }

  lemma UnionAsMultiset<T>(a: set<T>, b: set<T>)
    requires a !! b
    ensures multiset(a + b) == multiset(a) + multiset(b)
  {
  }

  lemma CloseOneMoreAlerts(db: Db, i: Input, ids: set<nat>, id: nat)
    requires id < |db.alerts| && id !in ids && db.alerts[id].status.Firing?
    ensures CloseOne(Close(db, i, ids), i, id).alerts == Close(db, i, ids + {id}).alerts
  {
  }

  lemma RowsOneMore(db: Db, i: Input, ids: set<nat>, id: nat)
    requires id < |db.alerts| && id !in ids && db.alerts[id].status.Firing?
    ensures ClearedRows(db, i, ids + {id}) == ClearedRows(db, i, ids) + NoticesFor(db, i, id)
    ensures ClearedRows(db, i, ids) !! NoticesFor(db, i, id)
  {
  }

  /** Keys that are firing stay firing while findings are opened. */
  lemma {:induction false} FireKeepsFiring(db: Db, device: Uuid, fs: seq<Finding>, key: string)
    requires HasFiring(db.alerts, key)
    ensures HasFiring(Fire(db, device, fs).alerts, key)
  {
    FireMoves(db, device, fs);
    var k :| 0 <= k < |db.alerts| && db.alerts[k].status.Firing? && db.alerts[k].key == key;
    assert Fire(db, device, fs).alerts[k] == db.alerts[k];
  }

  function FoundKeys(findings: seq<Finding>): set<string> {
    if findings == [] then {} else FoundKeys(findings[..|findings| - 1]) + {findings[|findings| - 1].key}
  }

  lemma {:induction false} FoundKeysAre(findings: seq<Finding>, key: string)
    ensures key in FoundKeys(findings) <==> exists f :: f in findings && f.key == key
  {
    if findings != [] {
      var n := |findings| - 1;
      FoundKeysAre(findings[..n], key);
      assert findings == findings[..n] + [findings[n]];
    }
  }

  /** The keys of the listed alerts: the map `firingKeys`. */
  function KeysOf(alerts: seq<Alert>, ids: seq<nat>): set<string>
    requires forall n :: 0 <= n < |ids| ==> ids[n] < |alerts|
  {
    set n | 0 <= n < |ids| :: alerts[ids[n]].key
  }

  lemma ListedKeyIsFiring(alerts: seq<Alert>, ids: seq<nat>, key: string)
    requires AreFiring(alerts, ids) && key in KeysOf(alerts, ids)
    ensures HasFiring(alerts, key)
  {
  }

  class AlertStore {
    var alerts: seq<Alert>
    var outbox: multiset<Row>
    var channels: set<Id>

    ghost function Tables(): Db
      reads this
    {
      Db(alerts, outbox, channels)
    }

    /** INSERT ... ON CONFLICT DO NOTHING against the index on firing keys. */
    method OpenAlert(device: Uuid, f: Finding) returns (id: nat, inserted: bool)
      modifies this`alerts
      ensures Tables() == Open(old(Tables()), device, f)
      ensures inserted <==> !HasFiring(old(alerts), f.key)
      ensures id == |old(alerts)|
    {
      id := |alerts|;
      inserted := !HasFiring(alerts, f.key);
      if inserted {
        alerts := alerts + [NewAlert(device, f)];
      }
    }

    /** UPDATE ... WHERE status = 'firing'; false is ErrNotFound. */
    method ResolveAlert(id: nat, cause: Cause) returns (found: bool)
      modifies this`alerts
      ensures found <==> id < |old(alerts)| && old(alerts)[id].status.Firing?
      ensures alerts == if found then old(alerts)[id := old(alerts)[id].(status := Resolved(cause))] else old(alerts)
    {
      found := id < |alerts| && alerts[id].status.Firing?;
      if found {
        alerts := alerts[id := alerts[id].(status := Resolved(cause))];
      }
    }

    method ResolveAlertsForDecommissioned(active: set<Uuid>)
      modifies this`alerts
      ensures Tables() == CloseInactive(old(Tables()), active)
    {
      ghost var all := alerts;
      for k := 0 to |alerts|
        invariant |alerts| == |all| && alerts[k..] == all[k..]
        invariant alerts[..k] == CloseInactive(old(Tables()), active).alerts[..k]
      {
        assert alerts[k] == alerts[k..][0] == all[k];
        if alerts[k].status.Firing? && alerts[k].device !in active {
          alerts := alerts[k := alerts[k].(status := Resolved(Decommissioned))];
        }
        assert alerts[k + 1..] == all[k..][1..];
      }
      assert alerts == CloseInactive(old(Tables()), active).alerts;
    }

    method EnqueueDeliveries(id: nat, listed: seq<Id>, event: Event)
      modifies this`outbox
      ensures Tables() == Enqueue(old(Tables()), id, listed, event)
    {
      outbox := outbox + multiset(Rows(channels, id, listed, event));
    }

    method ListFiringAlertsForDevice(device: Uuid) returns (ids: seq<nat>)
      ensures ToSet(ids) == FiringIds(Tables(), device) && AreFiring(alerts, ids)
    {
      ids := [];
      for k := 0 to |alerts|
        invariant forall l :: l in ids <==> 0 <= l < k && alerts[l].status.Firing? && alerts[l].device == device
        invariant AreFiring(alerts, ids)
      {
        if alerts[k].status.Firing? && alerts[k].device == device {
          ids := ids + [k];
        }
      }
    }

    /** The body of the first inner loop: open the finding unless its key is firing, and announce it. */
    method OpenIfNew(device: Uuid, f: Finding, firingKeys: set<string>)
      requires f.key in firingKeys ==> HasFiring(alerts, f.key)
      modifies this`alerts, this`outbox
      ensures Tables() == FireOne(old(Tables()), device, f)
    {
      if f.key in firingKeys {
        return;
      }
      var id, inserted := OpenAlert(device, f);
      if inserted {
        EnqueueDeliveries(id, f.channels, FiredEvent);
      }
    }

    method OpenFindings(device: Uuid, findings: seq<Finding>, firing: seq<nat>) returns (openKeys: set<string>)
      requires AreFiring(alerts, firing)
      modifies this`alerts, this`outbox
      ensures Tables() == Fire(old(Tables()), device, findings)
      ensures openKeys == FoundKeys(findings)
    {
      ghost var start := Tables();
      var firingKeys := KeysOf(alerts, firing);
      openKeys := {};
      for n := 0 to |findings|
        invariant Tables() == Fire(start, device, findings[..n])
        invariant openKeys == FoundKeys(findings[..n])
      {
        var f := findings[n];
        assert findings[..n + 1][..n] == findings[..n];
        if f.key in firingKeys {
          ListedKeyIsFiring(start.alerts, firing, f.key);
          FireKeepsFiring(start, device, findings[..n], f.key);
        }
        openKeys := openKeys + {f.key};
        OpenIfNew(device, f, firingKeys);
      }
      assert findings[..|findings|] == findings;
    }

    /** The body of the second inner loop: resolve what no longer holds; false if the call failed. */
    method ResolveIfGone(i: Input, id: nat, openKeys: set<string>, evaluated: seq<RuleType>) returns (ok: bool)
      requires id < |alerts| && alerts[id].status.Firing?
      requires alerts[id].key in openKeys <==> IsOpen(i, alerts[id].key)
      requires alerts[id].rule in evaluated <==> Assessed(i.eff, i.st, alerts[id].rule)
      modifies this`alerts, this`outbox
      ensures ok && Tables() == CloseOne(old(Tables()), i, id)
    {
      ok := true;
      var a := alerts[id];
      if a.key in openKeys {
        return;
      }
      if !Configured(i.eff, a.rule) {
        ok := ResolveAlert(id, RuleRemoved);
      } else if a.rule in evaluated {
        ok := ResolveAlert(id, Cleared);
        if ok {
          EnqueueDeliveries(id, a.channels, ResolvedEvent);
        }
      }
    }

    method ResolveStale(i: Input, firing: seq<nat>, openKeys: set<string>, evaluated: seq<RuleType>) returns (ok: bool)
      requires openKeys == FoundKeys(FindingsOf(i))
      requires forall rt :: rt in evaluated <==> Assessed(i.eff, i.st, rt)
      requires AreFiring(alerts, firing)
      modifies this`alerts, this`outbox
      ensures ok && Tables() == CloseInTurn(old(Tables()), i, firing)
    {
      ghost var start := Tables();
      for n := 0 to |firing|
        invariant Tables() == CloseInTurn(start, i, firing[..n])
      {
        assert firing[..n + 1][..n] == firing[..n];
        NotYetClosed(start, i, firing[..n], firing[n]);
        FoundKeysAre(FindingsOf(i), alerts[firing[n]].key);
        ok := ResolveIfGone(i, firing[n], openKeys, evaluated);
        if !ok {
          return;
        }
      }
      assert firing[..|firing|] == firing;
      ok := true;
    }

    /** One device's turn in the pass. */
    method EvaluateDevice(now: int, eff: Effective, st: DeviceState) returns (ok: bool)
      modifies this`alerts, this`outbox
      ensures ok && Tables() == DevicePass(old(Tables()), Input(now, eff, st))
    {
      ghost var i := Input(now, eff, st);
      ghost var start := Tables();
      var findings, evaluated := Evaluate(now, eff, st);
      var firing := ListFiringAlertsForDevice(st.device);
      if findings == [] && firing == [] {
        assert ToSet(firing) == {};
        NothingToDo(start, i);
        return true;
      }
      var openKeys := OpenFindings(st.device, findings, firing);
      FireMoves(start, st.device, findings);
      CloseInTurnIsClose(Tables(), i, firing);
      ok := ResolveStale(Input(now, eff, st), firing, openKeys, evaluated);
    }

    /**
     One pass over the tenant.  It never fails on a missing alert, it is the function `Pass`
     of the inputs it worked on, and each input carries the device's effective policy.  On the
     list of the active devices its inputs cover them, so that AlertEngine.FiringAfterPass
     and its companions describe the tables it leaves.
     */
    method EvaluateAlerts(now: int, policies: seq<Policy>, active: set<Uuid>, devices: seq<EvalDevice>)
      returns (ok: bool, ghost inputs: seq<Input>)
      modifies this`alerts, this`outbox
      ensures ok && Tables() == Pass(old(Tables()), active, inputs)
      ensures AreInputsOf(inputs, now, policies, devices)
      ensures ListsActive(active, devices) ==> Covers(active, inputs)
    {
      ResolveAlertsForDecommissioned(active);
      ok, inputs := EvaluateDevices(now, policies, devices);
      if ListsActive(active, devices) {
        InputsCover(active, inputs, now, policies, devices);
      }
    }

    method EvaluateDevices(now: int, policies: seq<Policy>, devices: seq<EvalDevice>) returns (ok: bool, ghost inputs: seq<Input>)
      modifies this`alerts, this`outbox
      ensures ok && Tables() == PassDevices(old(Tables()), inputs)
      ensures AreInputsOf(inputs, now, policies, devices)
    {
      inputs := [];
      ok := true;
      for n := 0 to |devices|
        invariant ok && Tables() == PassDevices(old(Tables()), inputs)
        invariant AreInputsOf(inputs, now, policies, devices[..n])
      {
        ghost var i;
        ok, i := EvaluateOn(now, policies, devices[n]);
        if !ok {
          return;
        }
        PassDevicesExtend(old(Tables()), inputs, i);
        InputsExtend(inputs, i, now, policies, devices, n);
        inputs := inputs + [i];
      }
      assert devices[..|devices|] == devices;
    }

    method EvaluateOn(now: int, policies: seq<Policy>, d: EvalDevice) returns (ok: bool, ghost i: Input)
      modifies this`alerts, this`outbox
      ensures ok && IsInputOf(i, now, policies, d) && Tables() == DevicePass(old(Tables()), i)
    {
      var eff := EffectiveFor(policies, d.place);
      i := Input(now, eff, d.st);
      ok := EvaluateDevice(now, eff, d.st);
    }
  }

  lemma PassDevicesExtend(db: Db, inputs: seq<Input>, i: Input)
    ensures PassDevices(db, inputs + [i]) == DevicePass(PassDevices(db, inputs), i)
  {
    assert (inputs + [i])[..|inputs|] == inputs;
  }

  lemma NothingToDo(db: Db, i: Input)
    requires FindingsOf(i) == [] && FiringIds(db, i.st.device) == {}
    ensures DevicePass(db, i) == db
  {
  }

  /** The inputs of a pass are determined by the clock, the policies and the telemetry alone. */
  lemma {:induction false} InputsAreDetermined(now: int, policies: seq<Policy>, devices: seq<EvalDevice>, a: seq<Input>, b: seq<Input>)
    requires AreInputsOf(a, now, policies, devices) && AreInputsOf(b, now, policies, devices)
    ensures a == b
  {
    if a != [] {
      var n := |a| - 1;
      InputsAreDetermined(now, policies, devices[..n], a[..n], b[..n]);
      InputIsDetermined(now, policies, devices[n], a[n], b[n]);
      assert a == a[..n] + [a[n]] && b == b[..n] + [b[n]];
    }
  }

  lemma InputIsDetermined(now: int, policies: seq<Policy>, d: EvalDevice, a: Input, b: Input)
    requires IsInputOf(a, now, policies, d) && IsInputOf(b, now, policies, d)
    ensures a == b
  {
    forall rt
      ensures a.eff.Get(rt) == b.eff.Get(rt)
    {
      assert a.eff.Get(rt) == Nearest(WorkerMarks(policies, d.place, rt), MAX_SCOPE_RANK);
    }
    FieldsDetermine(a.eff, b.eff);
  }
}
