/**
 The race between the update watchdog and health confirmation
 (agent/internal/conn/conn.go:214-219, 586-612, over agent/internal/update/update.go:220-243).

 After an update both run in the new process without a lock: the watchdog goroutine rolls back
 when the deadline passes, the connection loop confirms on every authenticated session.  Their
 steps interleave freely, any file operation may fail, and the process may die and be started
 again at any point.  No Apply runs meanwhile.
 */
module Watchdog {
  import opened Wrappers
  import opened SelfUpdate

  datatype WatchdogPc = Idle | Armed | Rolling(pc: RollbackPc) | Restarting

  datatype SessionPc = Offline | Confirm(pc: ConfirmPc)

  /** The disk and both parties; `moved`, `dropped` and `faulted` are history. */
  datatype State = State(
    disk: Disk, watchdog: WatchdogPc, session: SessionPc,
    moved: nat,      // times `.prev` was renamed back
    dropped: nat,    // times an existing `.prev` was deleted
    faulted: bool)   // some file operation was made to fail

  datatype Event =
    | Guard(ok: bool)    // one step of the watchdog: the deadline check, then Rollback's steps
    | Connect(ok: bool)  // an authenticated session looks for a pending marker
    | Serve(ok: bool)    // one step of ConfirmHealthy
    | Boot(ok: bool)     // a restart by the watchdog, or a crash and a new start

  /** An update has been applied over `former` and its marker written; the new process starts. */
  predicate Begins(s: State, former: Binary, fresher: Binary) {
    && s.disk.self == Whole(fresher) && s.disk.prev == Whole(former) && s.disk.marker.Some?
    && s.watchdog in {Idle, Armed} && s.session == Offline
    && s.moved == 0 && s.dropped == 0 && !s.faulted
  }

  predicate Enabled(s: State, e: Event) {
    match e
    case Guard(_) => s.watchdog.Armed? || s.watchdog.Rolling?
    case Connect(_) => s.session.Offline?
    case Serve(_) => s.session.Confirm?
    case Boot(_) => true
  }

  function AfterRollback(pc: RollbackPc): WatchdogPc {
    match pc
    case RolledBack(true) => Restarting
    case RolledBack(false) => Idle
    case _ => Rolling(pc)
  }

  function Apply(s: State, e: Event): State
    requires Enabled(s, e)
  {
    match e
    case Guard(ok) =>
      if s.watchdog.Armed? then
        s.(watchdog := if ok && s.disk.marker.Some? then Rolling(RollbackRead) else Idle, faulted := s.faulted || !ok)
      else
        var r := RollbackStep(RollingBack(s.watchdog.pc, s.disk), ok);
        s.(disk := r.disk, watchdog := AfterRollback(r.pc), faulted := s.faulted || !ok,
           moved := s.moved + if s.watchdog.pc.MoveBack? && r.pc.ClearMarker? then 1 else 0)
    case Connect(ok) =>
      s.(session := if ok && s.disk.marker.Some? then Confirm(ConfirmRead) else Offline, faulted := s.faulted || !ok)
    case Serve(ok) =>
      var c := ConfirmStep(Confirming(s.session.pc, s.disk), ok);
      s.(disk := c.disk, session := if c.pc.Confirmed? then Offline else Confirm(c.pc), faulted := s.faulted || !ok,
         dropped := s.dropped + if s.session.pc.ConfirmDropPrev? && ok && !s.disk.prev.Absent? then 1 else 0)
    case Boot(ok) =>
      s.(watchdog := if ok && s.disk.marker.Some? then Armed else Idle, session := Offline, faulted := s.faulted || !ok)
  }

  function After(s: State, es: seq<Event>): State {
    if es == [] then s
    else
      var before := After(s, es[..|es| - 1]);
      if Enabled(before, es[|es| - 1]) then Apply(before, es[|es| - 1]) else before
  }

  ghost predicate Inv(s: State, former: Binary, fresher: Binary) {
    && s.moved + s.dropped <= 1
    && s.disk.self == Whole(if s.moved == 1 then former else fresher)
    && s.disk.prev == (if s.moved + s.dropped == 0 then Whole(former) else Absent)
    && (s.watchdog in {Restarting, Rolling(ClearMarker)} ==> s.moved == 1)
    && (s.watchdog.Rolling? ==> !s.watchdog.pc.RolledBack?)
    && (s.session.Confirm? ==> !s.session.pc.Confirmed?)
    && (!s.faulted && (s.disk.marker.None? || s.session == Confirm(ConfirmDropMarker)) ==> s.moved + s.dropped == 1)
  }

  lemma GuardKeepsInv(s: State, ok: bool, former: Binary, fresher: Binary)
    requires Inv(s, former, fresher) && Enabled(s, Guard(ok))
    ensures Inv(Apply(s, Guard(ok)), former, fresher)
  {
  }

  lemma ServeKeepsInv(s: State, ok: bool, former: Binary, fresher: Binary)
    requires Inv(s, former, fresher) && Enabled(s, Serve(ok))
    ensures Inv(Apply(s, Serve(ok)), former, fresher)
  {
  }

  lemma {:induction false} RunKeepsInv(s: State, es: seq<Event>, former: Binary, fresher: Binary)
    requires Begins(s, former, fresher)
    ensures Inv(After(s, es), former, fresher)
  {
    if es != [] {
      var before, e := After(s, es[..|es| - 1]), es[|es| - 1];
      RunKeepsInv(s, es[..|es| - 1], former, fresher);
      if Enabled(before, e) {
        match e {
          case Guard(ok) => GuardKeepsInv(before, ok, former, fresher);
          case Serve(ok) => ServeKeepsInv(before, ok, former, fresher);
          case Connect(_) =>
          case Boot(_) =>
        }
      }
    }
  }

  /**
   For every interleaving: the executable is never absent, and is the old one exactly if the
   rollback's rename happened; the kept `.prev` is consumed at most once, renamed back or deleted
   but never both; and the watchdog restarts the process only with the old executable in place.
   */
  lemma RaceIsHarmless(s: State, es: seq<Event>, former: Binary, fresher: Binary)
    requires Begins(s, former, fresher)
    ensures var t := After(s, es);
      && t.disk.self == Whole(if t.moved == 1 then former else fresher)
      && t.moved + t.dropped <= 1
      && t.disk.prev == (if t.moved + t.dropped == 0 then Whole(former) else Absent)
      && (t.watchdog.Restarting? ==> t.disk.self == Whole(former))
  {
    RunKeepsInv(s, es, former, fresher);
  }

  /** Where no file operation failed and either side has cleared the marker, it was consumed exactly once. */
  lemma PrevIsConsumedOnce(s: State, es: seq<Event>, former: Binary, fresher: Binary)
    requires Begins(s, former, fresher) && !After(s, es).faulted && After(s, es).disk.marker.None?
    ensures var t := After(s, es);
      && t.moved + t.dropped == 1 && t.disk.prev == Absent
      && (t.disk.self == Whole(former) <==> t.moved == 1 || former == fresher)
  {
    RunKeepsInv(s, es, former, fresher);
  }

  lemma OneMore(s: State, es: seq<Event>, e: Event)
    requires Enabled(After(s, es), e)
    ensures After(s, es + [e]) == Apply(After(s, es), e)
  {
    assert (es + [e])[..|es|] == es;
  }

  /**
   The new process starts, and past the deadline the watchdog finds the marker still there: it puts
   the old executable back and restarts on it.
   */
  lemma UnconfirmedUpdateIsRolledBack(s: State, former: Binary, fresher: Binary)
    requires Begins(s, former, fresher)
    ensures var t := After(s, [] + [Boot(true)] + [Guard(true)] + [Guard(true)] + [Guard(true)] + [Guard(true)] + [Guard(true)]);
      t.watchdog.Restarting? && t.disk == s.disk.(self := Whole(former), prev := Absent, marker := None)
  {
    var one := [] + [Boot(true)] + [Guard(true)];
    var two := one + [Guard(true)];
    OneMore(s, [], Boot(true));
    OneMore(s, [] + [Boot(true)], Guard(true));
    OneMore(s, one, Guard(true));
    assert After(s, two).watchdog == Rolling(StatPrev) && After(s, two).disk == s.disk;
    OneMore(s, two, Guard(true));
    assert After(s, two + [Guard(true)]).watchdog == Rolling(MoveBack);
    OneMore(s, two + [Guard(true)], Guard(true));
    OneMore(s, two + [Guard(true)] + [Guard(true)], Guard(true));
  }

  /** A confirmation before the deadline keeps the new executable, and the watchdog then finds nothing to undo. */
  lemma ConfirmedUpdateStays(s: State, former: Binary, fresher: Binary)
    requires Begins(s, former, fresher) && s.watchdog.Armed?
    ensures var t := After(s, [] + [Connect(true)] + [Serve(true)] + [Serve(true)] + [Serve(true)] + [Guard(true)]);
      t.watchdog.Idle? && t.session.Offline? && t.disk == s.disk.(prev := Absent, marker := None)
  {
    var one := [] + [Connect(true)];
    var two := one + [Serve(true)];
    OneMore(s, [], Connect(true));
    OneMore(s, one, Serve(true));
    assert After(s, two).session == Confirm(ConfirmDropPrev) && After(s, two).disk == s.disk;
    OneMore(s, two, Serve(true));
    OneMore(s, two + [Serve(true)], Serve(true));
    OneMore(s, two + [Serve(true)] + [Serve(true)], Guard(true));
  }

  /** A rollback whose rename fails is given up: the disk is as before and the watchdog stays idle until the next start. */
  lemma FailedRollbackIsGivenUp(s: State, former: Binary, fresher: Binary)
    requires Begins(s, former, fresher)
    ensures var t := After(s, [] + [Boot(true)] + [Guard(true)] + [Guard(true)] + [Guard(true)] + [Guard(false)]);
      t.watchdog.Idle? && t.disk == s.disk && t.faulted && forall ok :: !Enabled(t, Guard(ok))
  {
    var one := [] + [Boot(true)] + [Guard(true)];
    var two := one + [Guard(true)];
    OneMore(s, [], Boot(true));
    OneMore(s, [] + [Boot(true)], Guard(true));
    OneMore(s, one, Guard(true));
    assert After(s, two).watchdog == Rolling(StatPrev) && After(s, two).disk == s.disk;
    OneMore(s, two, Guard(true));
    assert After(s, two + [Guard(true)]).watchdog == Rolling(MoveBack);
    OneMore(s, two + [Guard(true)], Guard(false));
  }

  predicate Good(e: Event) {
    match e
    case Guard(ok) => ok
    case Connect(ok) => ok
    case Serve(ok) => ok
    case Boot(ok) => ok
  }

  ghost predicate FailsAt(s: State, es: seq<Event>, n: int) {
    0 <= n < |es| && Enabled(After(s, es[..n]), es[n]) && !Good(es[n])
  }

  lemma FailsBefore(s: State, es: seq<Event>, n: int)
    requires es != [] && n < |es| - 1
    ensures FailsAt(s, es, n) <==> FailsAt(s, es[..|es| - 1], n)
  {
    if 0 <= n {
      assert es[..|es| - 1][..n] == es[..n] && es[..|es| - 1][n] == es[n];
    }
  }

  /** A fault is an operation that failed: a run of good events has none, and any enabled failing one leaves its mark. */
  lemma {:induction false} FaultsAreFailures(s: State, es: seq<Event>)
    requires !s.faulted
    ensures After(s, es).faulted <==> exists n :: FailsAt(s, es, n)
  {
    if es != [] {
      var last := |es| - 1;
      FaultsAreFailures(s, es[..last]);
      forall n | n < last
        ensures FailsAt(s, es, n) <==> FailsAt(s, es[..last], n)
      {
        FailsBefore(s, es, n);
      }
      if Enabled(After(s, es[..last]), es[last]) {
        StepFaults(After(s, es[..last]), es[last]);
      }
      assert FailsAt(s, es, last) <==> Enabled(After(s, es[..last]), es[last]) && !Good(es[last]);
    }
  }

  lemma StepFaults(s: State, e: Event)
    requires Enabled(s, e)
    ensures Apply(s, e).faulted <==> s.faulted || !Good(e)
  {
  }

  /** A crash or restart loses whatever either side was in the middle of; the watchdog is armed again iff the marker is found. */
  lemma BootStartsOver(s: State, es: seq<Event>, ok: bool)
    ensures var before, t := After(s, es), After(s, es + [Boot(ok)]);
      && t.disk == before.disk && t.session.Offline?
      && (t.watchdog.Armed? <==> ok && before.disk.marker.Some?) && (t.watchdog.Armed? || t.watchdog.Idle?)
  {
    OneMore(s, es, Boot(ok));
  }

  /** Without a pending marker neither side starts anything: the disk stays as it is for ever. */
  lemma {:induction false} NothingStartsWithoutAMarker(s: State, es: seq<Event>)
    requires s.disk.marker.None? && s.session.Offline? && !s.watchdog.Rolling?
    ensures var t := After(s, es);
      t.disk == s.disk && t.session.Offline? && !t.watchdog.Rolling? && (t.watchdog == s.watchdog || t.watchdog.Idle?)
  {
    if es != [] {
      NothingStartsWithoutAMarker(s, es[..|es| - 1]);
    }
  }

  /** The state an update leaves behind is one the race starts from. */
  lemma UpdateBeginsTheRace(d: Disk, u: Update, ok: nat -> bool, n: nat, armed: bool)
    requires d.self.Whole?
    requires ApplyAt(d, u, ok, n).pc == Returned(true) && ApplyAt(d, u, ok, n).disk.marker.Some?
    ensures Begins(State(ApplyAt(d, u, ok, n).disk, if armed then Armed else Idle, Offline, 0, 0, false), d.self.bytes, u.data)
  {
    ApplyKeepsInv(d, u, ok, n);
  }
}
