/**
 Cron schedules (server/internal/worker/worker.go:99-206, server/internal/store/schedules.go:75-145
 and the update handler server/internal/api/schedules_handlers.go:152-211).

 The cron library is a parameter: `slot` says which instants match the expression and `next`
 is its Next.  The first part follows one schedule over whole runs, with any number of workers
 and API updates; the second is the schedules table and the worker's loop.
 */
module Scheduler {
  import opened Wrappers

  datatype Cron = Cron(slot: int -> bool, next: int -> int)

  /** Next(t) is the least slot after t. */
  ghost predicate IsCron(c: Cron) {
    forall t :: t < c.next(t) && c.slot(c.next(t)) && forall u :: t < u < c.next(t) ==> !c.slot(u)
  }

  // ---------------------------------------------------------------------
  // One schedule over a run

  datatype Firing = Firing(slot: int, at: int)

  /** `anchor` is the clock reading that next_run_at was computed from. */
  datatype Life = Life(enabled: bool, nextAt: int, anchor: int, clock: int, fired: seq<Firing>)

  datatype Event =
    /** A worker's transaction claims the due schedule at `at` and computes the next run from `read`. */
    | Fire(at: int, read: int)
    /** The API computed the next run at `read` and commits its update at `at`. */
    | Update(read: int, at: int, enabled: bool)

  function Created(c: Cron, read: int, enabled: bool): Life {
    Life(enabled, c.next(read), read, read, [])
  }

  /** The clock never goes back; the claim's row lock keeps two workers from firing at once. */
  predicate Enabled(l: Life, e: Event) {
    match e
    case Fire(at, read) => l.clock <= at <= read && l.enabled && l.nextAt <= at
    case Update(read, at, _) => l.clock <= at && read <= at
  }

  function Apply(c: Cron, l: Life, e: Event): Life {
    match e
    case Fire(at, read) => Life(l.enabled, c.next(read), read, read, l.fired + [Firing(l.nextAt, at)])
    case Update(read, at, enabled) => Life(enabled, c.next(read), read, at, l.fired)
  }

  function After(c: Cron, l: Life, es: seq<Event>): Life {
    if es == [] then l else Apply(c, After(c, l, es[..|es| - 1]), es[|es| - 1])
  }

  predicate Legal(c: Cron, l: Life, es: seq<Event>) {
    es == [] || (Legal(c, l, es[..|es| - 1]) && Enabled(After(c, l, es[..|es| - 1]), es[|es| - 1]))
  }

  /** The pending slot lies after the last firing. */
  predicate Ahead(fired: seq<Firing>, slot: int) {
    fired == [] || fired[|fired| - 1].at < slot
  }

  /** An update whose clock reading puts the next run after the last firing. */
  predicate Timely(c: Cron, l: Life, e: Event) {
    e.Update? ==> Ahead(l.fired, c.next(e.read))
  }

  predicate TimelyRun(c: Cron, l: Life, es: seq<Event>) {
    es == [] || (TimelyRun(c, l, es[..|es| - 1]) && Timely(c, After(c, l, es[..|es| - 1]), es[|es| - 1]))
  }

  /** Every firing was for a slot of the cron, after the creation, that had come. */
  ghost predicate FiringsDue(c: Cron, created: int, fired: seq<Firing>) {
    && (forall i :: 0 <= i < |fired| ==> c.slot(fired[i].slot) && created < fired[i].slot <= fired[i].at)
    && (forall i, j :: 0 <= i < j < |fired| ==> fired[i].at <= fired[j].at)
  }

  /** Each fired slot lies after every earlier firing: none repeats, and none missed is replayed. */
  ghost predicate FiringsOk(c: Cron, created: int, fired: seq<Firing>) {
    && FiringsDue(c, created, fired)
    && (forall i, j :: 0 <= i < j < |fired| ==> fired[i].at < fired[j].slot)
  }

  ghost predicate Inv(c: Cron, created: int, l: Life) {
    && FiringsDue(c, created, l.fired)
    && (l.fired != [] ==> l.fired[|l.fired| - 1].at <= l.clock)
    && created <= l.anchor && l.nextAt == c.next(l.anchor)
  }

  lemma StepKeepsInv(c: Cron, created: int, l: Life, e: Event)
    requires IsCron(c) && Inv(c, created, l) && Enabled(l, e) && (e.Update? ==> created <= e.read)
    ensures Inv(c, created, Apply(c, l, e))
  {
    var m := Apply(c, l, e);
    assert l.anchor < l.nextAt && c.slot(l.nextAt);
    forall i, j | 0 <= i < j < |m.fired|
      ensures m.fired[i].at <= m.fired[j].at
    {
      assert i < |l.fired| - 1 ==> l.fired[i].at <= l.fired[|l.fired| - 1].at;
    }
  }

  /** Updates name a schedule by the id its creation returned, so they read the clock after it did. */
  predicate AfterCreation(created: int, es: seq<Event>) {
    forall k :: 0 <= k < |es| && es[k].Update? ==> created <= es[k].read
  }

  /**
   Over every run, whatever clock readings updates use: each firing is for a cron slot after the
   creation that had come, and what fires next is the first slot after the clock reading of
   the last firing or update.
   */
  lemma {:induction false} EveryFiringIsDue(c: Cron, created: int, enabled: bool, es: seq<Event>)
    requires IsCron(c) && Legal(c, Created(c, created, enabled), es) && AfterCreation(created, es)
    ensures var l := After(c, Created(c, created, enabled), es);
      && Inv(c, created, l)
      && forall u :: l.anchor < u < l.nextAt ==> !c.slot(u)
  {
    if es != [] {
      var before := es[..|es| - 1];
      assert forall k :: 0 <= k < |before| ==> before[k] == es[k];
      EveryFiringIsDue(c, created, enabled, before);
      StepKeepsInv(c, created, After(c, Created(c, created, enabled), before), es[|es| - 1]);
    }
  }

  lemma StepStaysAhead(c: Cron, created: int, l: Life, e: Event)
    requires IsCron(c) && Inv(c, created, l) && FiringsOk(c, created, l.fired) && Ahead(l.fired, l.nextAt)
    requires Enabled(l, e) && Timely(c, l, e) && (e.Update? ==> created <= e.read)
    ensures var m := Apply(c, l, e);
      Inv(c, created, m) && FiringsOk(c, created, m.fired) && Ahead(m.fired, m.nextAt)
  {
    StepKeepsInv(c, created, l, e);
    var m := Apply(c, l, e);
    forall i, j | 0 <= i < j < |m.fired|
      ensures m.fired[i].at < m.fired[j].slot
    {
      assert i < |l.fired| - 1 ==> l.fired[i].at <= l.fired[|l.fired| - 1].at;
    }
  }

  lemma {:induction false} RunStaysAhead(c: Cron, created: int, l: Life, es: seq<Event>)
    requires IsCron(c) && Inv(c, created, l) && FiringsOk(c, created, l.fired) && Ahead(l.fired, l.nextAt)
    requires Legal(c, l, es) && TimelyRun(c, l, es) && AfterCreation(created, es)
    ensures var m := After(c, l, es);
      Inv(c, created, m) && FiringsOk(c, created, m.fired) && Ahead(m.fired, m.nextAt)
  {
    if es != [] {
      var before := es[..|es| - 1];
      assert forall k :: 0 <= k < |before| ==> before[k] == es[k];
      RunStaysAhead(c, created, l, before);
      StepStaysAhead(c, created, After(c, l, before), es[|es| - 1]);
    }
  }

  /**
   Over every run whose updates put the next run after the last firing: each fired slot lies
   after every earlier firing, so no slot fires twice and missed slots are never replayed.
   */
  lemma FiringsFollowTheCron(c: Cron, created: int, enabled: bool, es: seq<Event>)
    requires IsCron(c) && Legal(c, Created(c, created, enabled), es) && AfterCreation(created, es)
    requires TimelyRun(c, Created(c, created, enabled), es)
    ensures FiringsOk(c, created, After(c, Created(c, created, enabled), es).fired)
  {
    RunStaysAhead(c, created, Created(c, created, enabled), es);
  }

  /** The number of slots in (from, to]. */
  function Slots(c: Cron, from: int, to: int): nat
    decreases if from < to then to - from else 0
  {
    if to <= from then 0 else Slots(c, from, to - 1) + if c.slot(to) then 1 else 0
  }

  lemma {:induction false} SlotsGrow(c: Cron, from: int, lo: int, hi: int)
    requires lo <= hi
    ensures Slots(c, from, lo) <= Slots(c, from, hi)
    ensures lo < hi && from < hi && c.slot(hi) ==> Slots(c, from, lo) < Slots(c, from, hi)
    decreases hi - lo
  {
    if lo < hi {
      SlotsGrow(c, from, lo, hi - 1);
    }
  }

  lemma {:induction false} SlotsCountFirings(c: Cron, created: int, fired: seq<Firing>, n: nat, until: int)
    requires FiringsOk(c, created, fired) && n < |fired| && fired[n].at <= until
    ensures n + 1 <= Slots(c, created, until)
  {
    if n == 0 {
      SlotsGrow(c, created, created, fired[0].slot);
    } else {
      assert fired[n - 1].at < fired[n].slot;
      SlotsCountFirings(c, created, fired, n - 1, fired[n - 1].at);
      SlotsGrow(c, created, fired[n - 1].at, fired[n].slot);
    }
    SlotsGrow(c, created, fired[n].slot, until);
  }

  /** Up to any time such a schedule has fired at most as often as its cron has had slots. */
  lemma FiringsNeverExceedSlots(c: Cron, created: int, enabled: bool, es: seq<Event>, n: nat, until: int)
    requires IsCron(c) && Legal(c, Created(c, created, enabled), es) && AfterCreation(created, es)
    requires TimelyRun(c, Created(c, created, enabled), es)
    requires var fired := After(c, Created(c, created, enabled), es).fired; n < |fired| && fired[n].at <= until
    ensures n + 1 <= |set u | created < u <= until && c.slot(u)|
  {
    FiringsFollowTheCron(c, created, enabled, es);
    SlotsCountFirings(c, created, After(c, Created(c, created, enabled), es).fired, n, until);
    SlotsAreCounted(c, created, until);
  }

  lemma {:induction false} SlotsAreCounted(c: Cron, from: int, to: int)
    ensures Slots(c, from, to) == |set u | from < u <= to && c.slot(u)|
    decreases if from < to then to - from else 0
  {
    if from < to {
      SlotsAreCounted(c, from, to - 1);
      var before := set u | from < u <= to - 1 && c.slot(u);
      assert (set u | from < u <= to && c.slot(u)) == before + if c.slot(to) then {to} else {};
    } else {
      assert (set u | from < u <= to && c.slot(u)) == {};
    }
  }

  /** Event `m` is the last update before event `n`. */
  ghost predicate LastUpdate(es: seq<Event>, n: nat, m: int)
    requires n <= |es|
  {
    0 <= m < n && es[m].Update? && forall k :: m < k < n ==> !es[k].Update?
  }

  /** What the last update before event `n` said, or else the creation. */
  ghost predicate SaidLast(enabled: bool, es: seq<Event>, n: nat, last: bool)
    requires n <= |es|
  {
    || (last == enabled && forall m :: 0 <= m < n ==> !es[m].Update?)
    || (exists m :: LastUpdate(es, n, m) && es[m].enabled == last)
  }

  lemma SaidNext(enabled: bool, es: seq<Event>, n: nat, last: bool)
    requires n < |es| && SaidLast(enabled, es, n, last)
    ensures SaidLast(enabled, es, n + 1, if es[n].Update? then es[n].enabled else last)
  {
    if es[n].Update? {
      assert LastUpdate(es, n + 1, n);
    } else if m :| LastUpdate(es, n, m) && es[m].enabled == last {
      assert LastUpdate(es, n + 1, m);
    }
  }

  lemma {:induction false} EnabledIsSaidLast(c: Cron, created: int, enabled: bool, es: seq<Event>, n: nat)
    requires n <= |es|
    ensures SaidLast(enabled, es, n, After(c, Created(c, created, enabled), es[..n]).enabled)
  {
    if n > 0 {
      EnabledIsSaidLast(c, created, enabled, es, n - 1);
      assert es[..n][..n - 1] == es[..n - 1];
      SaidNext(enabled, es, n - 1, After(c, Created(c, created, enabled), es[..n - 1]).enabled);
    }
  }

  /** A schedule fires only while the last update (or its creation) left it enabled, and not before its slot. */
  lemma FiresOnlyWhileEnabled(c: Cron, created: int, enabled: bool, es: seq<Event>, n: nat)
    requires Legal(c, Created(c, created, enabled), es) && n < |es| && es[n].Fire?
    ensures SaidLast(enabled, es, n, true)
    ensures After(c, Created(c, created, enabled), es[..n]).nextAt <= es[n].at
  {
    EnabledIsSaidLast(c, created, enabled, es, n);
    LegalPrefix(c, Created(c, created, enabled), es, n + 1);
    assert es[..n + 1][..n] == es[..n];
  }

  lemma {:induction false} LegalPrefix(c: Cron, l: Life, es: seq<Event>, n: nat)
    requires Legal(c, l, es) && n <= |es|
    ensures Legal(c, l, es[..n])
  {
    if n < |es| {
      LegalPrefix(c, l, es[..|es| - 1], n);
      assert es[..|es| - 1][..n] == es[..n];
    } else {
      assert es[..n] == es;
    }
  }

  // ---------------------------------------------------------------------
  // The update race

  /** No continuation, with timely updates from here on, fires a slot not after an earlier firing. */
  ghost predicate NeverReplays(c: Cron, created: int, l: Life) {
    forall es :: Legal(c, l, es) && TimelyRun(c, l, es) && AfterCreation(created, es) ==> FiringsOk(c, created, After(c, l, es).fired)
  }

  /**
   The next run is computed before the update's transaction starts, so firings can come between.
   Whatever clock reading an update used, no slot repeats and no missed slot is replayed from
   then on if and only if the slot it schedules lies after the last firing.
   */
  lemma UpdateNeverReplaysIff(c: Cron, created: int, l: Life, read: int, at: int)
    requires IsCron(c) && Inv(c, created, l) && FiringsOk(c, created, l.fired)
    requires Enabled(l, Update(read, at, true)) && created <= read
    ensures NeverReplays(c, created, Apply(c, l, Update(read, at, true))) <==> Ahead(l.fired, c.next(read))
  {
    var m := Apply(c, l, Update(read, at, true));
    StepKeepsInv(c, created, l, Update(read, at, true));
    if Ahead(l.fired, c.next(read)) {
      forall es | Legal(c, m, es) && TimelyRun(c, m, es) && AfterCreation(created, es)
        ensures FiringsOk(c, created, After(c, m, es).fired)
      {
        RunStaysAhead(c, created, m, es);
      }
    } else {
      FiresAtOnce(c, m, at);
      var fired := After(c, m, [Fire(at, at)]).fired;
      assert fired[|l.fired| - 1].at >= fired[|l.fired|].slot;
      assert !FiringsOk(c, created, fired);
    }
  }

  /** A due schedule can fire as its very next event. */
  lemma FiresAtOnce(c: Cron, l: Life, at: int)
    requires Enabled(l, Fire(at, at))
    ensures var es := [Fire(at, at)];
      && Legal(c, l, es) && TimelyRun(c, l, es)
      && After(c, l, es) == Apply(c, l, Fire(at, at))
  {
    OneEvent(c, l, Fire(at, at));
  }

  lemma OneEvent(c: Cron, l: Life, e: Event)
    ensures After(c, l, [e]) == Apply(c, l, e)
    ensures Legal(c, l, [e]) <==> Enabled(l, e)
    ensures TimelyRun(c, l, [e]) <==> Timely(c, l, e)
  {
    var es := [e];
    var none := es[..|es| - 1];
    assert none == [];
    assert After(c, l, none) == l && Legal(c, l, none) && TimelyRun(c, l, none);
  }

  predicate HasFired(fired: seq<Firing>, slot: int) {
    exists i :: 0 <= i < |fired| && fired[i].slot == slot
  }

  ghost predicate NoRepeat(fired: seq<Firing>) {
    forall i, j :: 0 <= i < j < |fired| ==> fired[i].slot != fired[j].slot
  }

  /** What keeps later firings from repeating a slot: the pending slot has not fired yet. */
  ghost predicate Unrepeated(c: Cron, created: int, l: Life) {
    Inv(c, created, l) && NoRepeat(l.fired) && !HasFired(l.fired, l.nextAt)
  }

  lemma StepStaysUnrepeated(c: Cron, created: int, l: Life, e: Event)
    requires IsCron(c) && Unrepeated(c, created, l) && Enabled(l, e) && Timely(c, l, e) && (e.Update? ==> created <= e.read)
    ensures Unrepeated(c, created, Apply(c, l, e))
  {
    StepKeepsInv(c, created, l, e);
    var m := Apply(c, l, e);
    assert e.read < c.next(e.read);
    forall i | 0 <= i < |m.fired|
      ensures m.fired[i].slot < m.nextAt
    {
      assert i < |m.fired| - 1 ==> m.fired[i].at <= m.fired[|m.fired| - 1].at;
    }
  }

  lemma {:induction false} StaysUnrepeated(c: Cron, created: int, l: Life, es: seq<Event>)
    requires IsCron(c) && Unrepeated(c, created, l) && Legal(c, l, es) && TimelyRun(c, l, es) && AfterCreation(created, es)
    ensures Unrepeated(c, created, After(c, l, es))
  {
    if es != [] {
      var before := es[..|es| - 1];
      assert forall k :: 0 <= k < |before| ==> before[k] == es[k];
      StaysUnrepeated(c, created, l, before);
      StepStaysUnrepeated(c, created, After(c, l, before), es[|es| - 1]);
    }
  }

  /** No continuation, with timely updates from here on, fires a slot a second time. */
  ghost predicate NeverRepeats(c: Cron, created: int, l: Life) {
    forall es :: Legal(c, l, es) && TimelyRun(c, l, es) && AfterCreation(created, es) ==> NoRepeat(After(c, l, es).fired)
  }

  /** Firing twice alone is the narrower danger: exactly when the slot the update schedules has fired. */
  lemma UpdateNeverRepeatsIff(c: Cron, created: int, l: Life, read: int, at: int)
    requires IsCron(c) && Inv(c, created, l) && NoRepeat(l.fired)
    requires Enabled(l, Update(read, at, true)) && created <= read
    ensures NeverRepeats(c, created, Apply(c, l, Update(read, at, true))) <==> !HasFired(l.fired, c.next(read))
  {
    var m := Apply(c, l, Update(read, at, true));
    StepKeepsInv(c, created, l, Update(read, at, true));
    if HasFired(l.fired, c.next(read)) {
      RepeatsAtOnce(c, created, l, read, at);
    } else {
      forall es | Legal(c, m, es) && TimelyRun(c, m, es) && AfterCreation(created, es)
        ensures NoRepeat(After(c, m, es).fired)
      {
        StaysUnrepeated(c, created, m, es);
      }
    }
  }

  lemma RepeatsAtOnce(c: Cron, created: int, l: Life, read: int, at: int)
    requires Inv(c, created, l) && HasFired(l.fired, c.next(read)) && Enabled(l, Update(read, at, true))
    ensures !NeverRepeats(c, created, Apply(c, l, Update(read, at, true)))
  {
    var m := Apply(c, l, Update(read, at, true));
    var i :| 0 <= i < |l.fired| && l.fired[i].slot == c.next(read);
    assert i < |l.fired| - 1 ==> l.fired[i].at <= l.fired[|l.fired| - 1].at;
    FiresAtOnce(c, m, at);
    FiredAgain(l.fired, i, Firing(m.nextAt, at));
    assert AfterCreation(created, [Fire(at, at)]);
  }

  lemma FiredAgain(fired: seq<Firing>, i: nat, f: Firing)
    requires i < |fired| && fired[i].slot == f.slot
    ensures !NoRepeat(fired + [f])
  {
    assert (fired + [f])[i].slot == (fired + [f])[|fired|].slot;
  }

  /** An update that reads the clock at or after the last firing is timely. */
  lemma FreshUpdateIsTimely(c: Cron, l: Life, e: Event)
    requires IsCron(c) && e.Update? && (l.fired == [] || l.fired[|l.fired| - 1].at <= e.read)
    ensures Timely(c, l, e)
  {
    assert e.read < c.next(e.read);
  }

  /**
   A stale one need not be.  With slots at the multiples of 10: an update that read 9 before the
   slot at 10 fired makes it fire again, and one that read 19 before slot 10 fired late, at
   25, replays the missed slot 20.
   */
  lemma StaleUpdatesMisfire()
    ensures var c := Cron((t: int) => t % 10 == 0, (t: int) => (t / 10 + 1) * 10);
      var l := Created(c, 0, true);
      var twice := [Fire(10, 10), Update(9, 11, true), Fire(11, 11)];
      var replay := [Fire(25, 25), Update(19, 26, true), Fire(27, 27)];
      && IsCron(c) && Legal(c, l, twice) && Legal(c, l, replay)
      && After(c, l, twice).fired == [Firing(10, 10), Firing(10, 11)]
      && After(c, l, replay).fired == [Firing(10, 25), Firing(20, 27)]
  {
    var c := Cron((t: int) => t % 10 == 0, (t: int) => (t / 10 + 1) * 10);
    ThreeEvents(c, Created(c, 0, true), Fire(10, 10), Update(9, 11, true), Fire(11, 11));
    ThreeEvents(c, Created(c, 0, true), Fire(25, 25), Update(19, 26, true), Fire(27, 27));
  }

  lemma ThreeEvents(c: Cron, l: Life, e: Event, f: Event, g: Event)
    ensures var m := Apply(c, l, e);
      && After(c, l, [e, f, g]) == Apply(c, Apply(c, m, f), g)
      && (Legal(c, l, [e, f, g]) <==> Enabled(l, e) && Enabled(m, f) && Enabled(Apply(c, m, f), g))
  {
    var es := [e, f, g];
    assert es[..2] == [e, f] && es[..2][..1] == [e];
    OneEvent(c, l, e);
    assert After(c, l, es[..2]) == Apply(c, Apply(c, l, e), f);
  }

  // ---------------------------------------------------------------------
  // The table and the worker's loop

  type Device = nat

  datatype Schedule<Target> = Schedule(
    cron: string, script: nat, target: Option<Target>,
    enabled: bool, nextAt: int, lastAt: Option<int>)

  datatype ScriptState = Missing | Archived | Live

  datatype Error = TargetUnresolved

  /** What a firing consults: the cron parser, the scripts, and the target's current devices. */
  datatype Env<!Target> = Env(
    parse: string -> Option<Cron>,
    script: nat -> ScriptState,
    resolve: Target -> Result<seq<Device>, Error>)

  datatype Job = Job(schedule: nat, device: Device)

  predicate Eligible(rows: seq<Schedule>, now: int, locked: set<nat>, id: int) {
    0 <= id < |rows| && rows[id].enabled && rows[id].nextAt <= now && id !in locked
  }

  /** What ClaimDueSchedules may return: due, unlocked schedules by next run, cut off at the limit. */
  ghost predicate IsClaim(rows: seq<Schedule>, now: int, locked: set<nat>, limit: nat, ids: seq<nat>) {
    && |ids| <= limit
    && (forall k :: 0 <= k < |ids| ==> Eligible(rows, now, locked, ids[k]))
    && (forall j, k :: 0 <= j < k < |ids| ==> ids[j] != ids[k] && rows[ids[j]].nextAt <= rows[ids[k]].nextAt)
    && (forall id :: Eligible(rows, now, locked, id) && id !in ids ==>
          |ids| == limit && forall k :: 0 <= k < |ids| ==> rows[ids[k]].nextAt <= rows[id].nextAt)
  }

  /** A firing moves the next run past `read`; a cron that no longer parses disables the schedule. */
  function Fired<T>(s: Schedule<T>, now: int, read: int, env: Env<T>): Schedule<T> {
    var cron := env.parse(s.cron);
    if cron.None? then s.(enabled := false)
    else s.(lastAt := Some(now), nextAt := cron.value.next(read))
  }

  function JobsFor(id: nat, devices: seq<Device>): seq<Job> {
    seq(|devices|, k requires 0 <= k < |devices| => Job(id, devices[k]))
  }

  /** One job per device of the target, and none for a dead cron, script or target. */
  function JobsOf<T>(id: nat, s: Schedule<T>, env: Env<T>): Result<seq<Job>, Error> {
    if env.parse(s.cron).None? || !env.script(s.script).Live? || s.target.None? then Ok([])
    else match env.resolve(s.target.value)
      case Ok(devices) => Ok(JobsFor(id, devices))
      case Err(e) => Err(e)
  }

  function FiredRows<T>(rows: seq<Schedule<T>>, ids: seq<nat>, now: int, readings: nat -> int, env: Env<T>): seq<Schedule<T>> {
    seq(|rows|, k requires 0 <= k < |rows| => if k in ids then Fired(rows[k], now, readings(k), env) else rows[k])
  }

  function JobsOfAll<T>(rows: seq<Schedule<T>>, ids: seq<nat>, env: Env<T>): Result<seq<Job>, Error>
    requires forall k :: 0 <= k < |ids| ==> ids[k] < |rows|
  {
    if ids == [] then Ok([])
    else
      var before := JobsOfAll(rows, ids[..|ids| - 1], env);
      var last := JobsOf(ids[|ids| - 1], rows[ids[|ids| - 1]], env);
      if before.Ok? && last.Ok? then Ok(before.value + last.value) else Err(TargetUnresolved)
  }

  lemma {:induction false} FailsWithAnyPart<T>(rows: seq<Schedule<T>>, ids: seq<nat>, env: Env<T>, k: nat)
    requires forall k :: 0 <= k < |ids| ==> ids[k] < |rows|
    requires k < |ids| && JobsOf(ids[k], rows[ids[k]], env).Err?
    ensures JobsOfAll(rows, ids, env).Err?
  {
    if k < |ids| - 1 {
      FailsWithAnyPart(rows, ids[..|ids| - 1], env, k);
    }
  }

  lemma FireOneMore<T>(rows: seq<Schedule<T>>, ids: seq<nat>, i: nat, now: int, readings: nat -> int, env: Env<T>)
    requires i < |ids| && ids[i] < |rows| && ids[i] !in ids[..i]
    ensures FiredRows(rows, ids[..i + 1], now, readings, env)
         == FiredRows(rows, ids[..i], now, readings, env)[ids[i] := Fired(rows[ids[i]], now, readings(ids[i]), env)]
  {
    assert ids[..i + 1] == ids[..i] + [ids[i]];
  }

  /** Each claimed schedule with a live cron takes exactly the step `Fire` of the run above. */
  lemma ClaimedScheduleFires<T>(rows: seq<Schedule<T>>, ids: seq<nat>, now: int, readings: nat -> int, env: Env<T>,
                                limit: nat, locked: set<nat>, id: nat, l: Life)
    requires IsClaim(rows, now, locked, limit, ids) && id in ids && env.parse(rows[id].cron).Some?
    requires l.enabled == rows[id].enabled && l.nextAt == rows[id].nextAt && l.clock <= now <= readings(id)
    ensures var m := Apply(env.parse(rows[id].cron).value, l, Fire(now, readings(id)));
      && Enabled(l, Fire(now, readings(id)))
      && FiredRows(rows, ids, now, readings, env)[id].enabled == m.enabled
      && FiredRows(rows, ids, now, readings, env)[id].nextAt == m.nextAt
      && FiredRows(rows, ids, now, readings, env)[id].lastAt == Some(now)
      && m.fired[|l.fired|].slot == rows[id].nextAt
  {
    assert Eligible(rows, now, locked, id);
  }

  /** A claim leaves a due, enabled, unlocked schedule only if its batch is full of schedules that were due no later. */
  lemma DueIsClaimed<T>(rows: seq<Schedule<T>>, now: int, locked: set<nat>, limit: nat, ids: seq<nat>, id: nat)
    requires IsClaim(rows, now, locked, limit, ids)
    requires id < |rows| && rows[id].enabled && rows[id].nextAt <= now && id !in locked && id !in ids
    ensures |ids| == limit && forall k :: 0 <= k < |ids| ==> ids[k] < |rows| && rows[ids[k]].nextAt <= rows[id].nextAt
  {
    assert Eligible(rows, now, locked, id);
    assert forall k :: 0 <= k < |ids| ==> Eligible(rows, now, locked, ids[k]);
  }

  /** A tick disables claimed schedules whose cron no longer parses and touches no row it did not claim. */
  lemma TickTouchesOnlyClaimed<T>(rows: seq<Schedule<T>>, ids: seq<nat>, now: int, readings: nat -> int, env: Env<T>, id: nat)
    requires id < |rows|
    ensures var after := FiredRows(rows, ids, now, readings, env);
      && |after| == |rows|
      && (id !in ids ==> after[id] == rows[id])
      && (id in ids && env.parse(rows[id].cron).None? ==> after[id] == rows[id].(enabled := false))
      && after[id].cron == rows[id].cron && after[id].script == rows[id].script && after[id].target == rows[id].target
  {
  }

  /** A firing creates one job per device of its target, in the order of the resolved list. */
  lemma OneJobPerDevice<T>(id: nat, s: Schedule<T>, env: Env<T>)
    ensures JobsOf(id, s, env).Err? <==>
              env.parse(s.cron).Some? && env.script(s.script).Live? && s.target.Some? && env.resolve(s.target.value).Err?
    ensures JobsOf(id, s, env).Ok? ==>
      var jobs := JobsOf(id, s, env).value;
      if env.parse(s.cron).Some? && env.script(s.script).Live? && s.target.Some? then
        |jobs| == |env.resolve(s.target.value).value|
        && forall k :: 0 <= k < |jobs| ==> jobs[k] == Job(id, env.resolve(s.target.value).value[k])
      else jobs == []
  {
  }

  /** The schedule fires for the device: live cron, live script, and a target holding the device. */
  predicate Targets<T>(s: Schedule<T>, env: Env<T>, device: Device) {
    && env.parse(s.cron).Some? && env.script(s.script).Live? && s.target.Some?
    && env.resolve(s.target.value).Ok? && device in env.resolve(s.target.value).value
  }

  /** A tick creates jobs for exactly the devices its live claimed schedules target. */
  lemma {:induction false} JobsAreForTargets<T>(rows: seq<Schedule<T>>, ids: seq<nat>, env: Env<T>, id: nat, device: Device)
    requires (forall k :: 0 <= k < |ids| ==> ids[k] < |rows|) && JobsOfAll(rows, ids, env).Ok?
    ensures Job(id, device) in JobsOfAll(rows, ids, env).value <==> id in ids && Targets(rows[id], env, device)
  {
    if ids != [] {
      var before, last := ids[..|ids| - 1], ids[|ids| - 1];
      JobsAreForTargets(rows, before, env, id, device);
      assert ids == before + [last];
      var devices := if rows[last].target.Some? then env.resolve(rows[last].target.value) else Ok([]);
      if devices.Ok? {
        JobsForDevices(last, devices.value, id, device);
      }
    }
  }

  lemma JobsForDevices(id: nat, devices: seq<Device>, other: nat, device: Device)
    ensures Job(other, device) in JobsFor(id, devices) <==> other == id && device in devices
  {
    if k :| 0 <= k < |devices| && devices[k] == device {
      assert JobsFor(id, devices)[k] == Job(id, device);
    }
  }

  class Schedules<T> {
    var rows: seq<Schedule<T>>

    /** fireSchedule within the claiming transaction. */
    method FireSchedule(id: nat, now: int, read: int, env: Env<T>) returns (r: Result<seq<Job>, Error>)
      requires id < |rows|
      modifies this
      ensures rows == old(rows)[id := Fired(old(rows)[id], now, read, env)]
      ensures r == JobsOf(id, old(rows)[id], env)
    {
      var sched := rows[id];
      var cron := env.parse(sched.cron);
      if cron.None? {
        rows := rows[id := sched.(enabled := false)];
        return Ok([]);
      }
      rows := rows[id := sched.(lastAt := Some(now), nextAt := cron.value.next(read))];
      if !env.script(sched.script).Live? {
        return Ok([]);
      }
      if sched.target.None? {
        return Ok([]);
      }
      var devices := env.resolve(sched.target.value);
      if devices.Err? {
        return Err(devices.error);
      }
      var created: seq<Job> := [];
      while |created| < |devices.value|
        invariant |created| <= |devices.value|
        invariant created == JobsFor(id, devices.value)[..|created|]
      {
        created := created + [Job(id, devices.value[|created|])];
      }
      assert created == JobsFor(id, devices.value);
      r := Ok(created);
    }

    /** The firing transaction of one tick over the claimed `ids`; an error rolls everything back. */
    method FireDueSchedules(ids: seq<nat>, now: int, locked: set<nat>, limit: nat, readings: nat -> int, env: Env<T>)
      returns (r: Result<seq<Job>, Error>)
      requires IsClaim(rows, now, locked, limit, ids)
      modifies this
      ensures r == JobsOfAll(old(rows), ids, env)
      ensures rows == if r.Ok? then FiredRows(old(rows), ids, now, readings, env) else old(rows)
    {
      var before := rows;
      var created: seq<Job> := [];
      var i := 0;
      while i < |ids|
        invariant 0 <= i <= |ids|
        invariant rows == FiredRows(before, ids[..i], now, readings, env)
        invariant JobsOfAll(before, ids[..i], env) == Ok(created)
      {
        assert ids[i] !in ids[..i];
        FireOneMore(before, ids, i, now, readings, env);
        assert ids[..i + 1][..i] == ids[..i];
        var jobs := FireSchedule(ids[i], now, readings(ids[i]), env);
        if jobs.Err? {
          FailsWithAnyPart(before, ids, env, i);
          rows := before;
          return Err(TargetUnresolved);
        }
        created := created + jobs.value;
        i := i + 1;
      }
      assert ids[..i] == ids;
      r := Ok(created);
    }
  }
}
