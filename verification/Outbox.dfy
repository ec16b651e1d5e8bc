/**
 Delivery of queued notifications (server/internal/store/alerts.go:295-372 and
 server/internal/worker/alerts.go:198-252): a worker claims due rows in one transaction, sends
 after the commit, and records each outcome in a transaction of its own.

 The first part follows one row through every interleaving of claims and outcomes; the second
 is the table with the store's statements and the worker's loop.  Times are in seconds.
 */
module Outbox {
  import opened Wrappers

  datatype Status = Pending | Sent | Failed

  datatype Row = Row(status: Status, attempts: nat, nextAt: int)

  const MAX_ATTEMPTS := 5
  const MINUTE := 60
  const MAX_INT := 0x7fff_ffff

  function Pow2(n: nat): (r: nat)
    ensures n < r
  {
    if n == 0 then 1 else 2 * Pow2(n - 1)
  }

  predicate Due(r: Row, now: int) {
    r.status.Pending? && r.nextAt <= now
  }

  /** `power(2, attempts)::int` is out of range for a 32-bit integer. */
  predicate Overflows(r: Row) {
    Pow2(r.attempts) > MAX_INT
  }

  function Backoff(attempts: nat): (delay: nat)
    ensures MINUTE <= delay <= 60 * MINUTE
  {
    (if Pow2(attempts) < 60 then Pow2(attempts) else 60) * MINUTE
  }

  function ClaimRow(r: Row, now: int): Row {
    r.(attempts := r.attempts + 1, nextAt := now + Backoff(r.attempts))
  }

  /** Neither outcome statement looks at the row's status, only at its id. */
  function SentRow(r: Row): Row {
    r.(status := Sent)
  }

  function ErrorRow(r: Row, attempt: nat): Row {
    r.(status := if attempt >= MAX_ATTEMPTS then Failed else Pending)
  }

  // ---------------------------------------------------------------------
  // One row, any number of workers

  /** A row with the claims whose outcome nobody has recorded yet, and the times of all claims. */
  datatype Life = Life(row: Row, inFlight: set<nat>, claims: seq<int>, lost: nat)

  datatype Event =
    | Claim(now: int)
    | Delivered(attempt: nat)  // the send succeeded and MarkDeliverySent committed
    | Refused(attempt: nat)    // the send failed and MarkDeliveryError committed
    | Lost(attempt: nat)       // the worker died, or recording the outcome failed

  function Queued(at: int): Life {
    Life(Row(Pending, 0, at), {}, [], 0)
  }

  predicate Enabled(l: Life, e: Event) {
    match e
    case Claim(now) => Due(l.row, now) && !Overflows(l.row)
    case Delivered(a) => a in l.inFlight
    case Refused(a) => a in l.inFlight
    case Lost(a) => a in l.inFlight
  }

  function Apply(l: Life, e: Event): Life {
    match e
    case Claim(now) =>
      Life(ClaimRow(l.row, now), l.inFlight + {l.row.attempts + 1}, l.claims + [now], l.lost)
    case Delivered(a) => l.(row := SentRow(l.row), inFlight := l.inFlight - {a})
    case Refused(a) => l.(row := ErrorRow(l.row, a), inFlight := l.inFlight - {a})
    case Lost(a) => l.(inFlight := l.inFlight - {a}, lost := l.lost + 1)
  }

  function After(l: Life, es: seq<Event>): Life {
    if es == [] then l else Apply(After(l, es[..|es| - 1]), es[|es| - 1])
  }

  predicate Legal(l: Life, es: seq<Event>) {
    es == [] || (Legal(l, es[..|es| - 1]) && Enabled(After(l, es[..|es| - 1]), es[|es| - 1]))
  }

  lemma OneMore(l: Life, es: seq<Event>, e: Event)
    ensures Legal(l, es + [e]) <==> Legal(l, es) && Enabled(After(l, es), e)
    ensures After(l, es + [e]) == Apply(After(l, es), e)
  {
    assert (es + [e])[..|es|] == es;
  }

  /** The backoff written out: it doubles up to half an hour and then stays at an hour. */
  lemma BackoffIsPace(attempts: nat)
    ensures attempts <= 5 ==> Backoff(attempts) == [60, 120, 240, 480, 960, 1920][attempts]
    ensures attempts >= 6 ==> Backoff(attempts) == 3600
  {
    assert Pow2(1) == 2 && Pow2(2) == 4 && Pow2(3) == 8 && Pow2(4) == 16;
    assert Pow2(5) == 32 && Pow2(6) == 64;
    if attempts >= 6 {
      Pow2Monotone(6, attempts);
    }
  }

  /** What holds of a row in every run, however claims overlap. */
  ghost predicate Paced(l: Life) {
    && l.row.attempts == |l.claims|
    && (l.claims != [] ==> l.row.nextAt == l.claims[|l.claims| - 1] + Backoff(|l.claims| - 1))
    && (forall k :: 0 <= k < |l.claims| - 1 ==> l.claims[k + 1] >= l.claims[k] + Backoff(k))
    && (forall a :: a in l.inFlight ==> 1 <= a <= l.row.attempts)
  }

  lemma StepIsPaced(l: Life, e: Event)
    requires Paced(l) && Enabled(l, e)
    ensures Paced(Apply(l, e))
  {
    var m := Apply(l, e);
    if e.Claim? {
      var n := |l.claims|;
      assert m.claims[n] == e.now && forall k :: 0 <= k < n ==> m.claims[k] == l.claims[k];
      assert n > 0 ==> e.now >= l.claims[n - 1] + Backoff(n - 1);
    }
  }

  lemma {:induction false} PacedRun(at: int, es: seq<Event>)
    requires Legal(Queued(at), es)
    ensures Paced(After(Queued(at), es))
  {
    if es != [] {
      PacedRun(at, es[..|es| - 1]);
      StepIsPaced(After(Queued(at), es[..|es| - 1]), es[|es| - 1]);
    }
  }

  /**
   In every run: after the k-th claim of a row, counted from 0, at least 1, 2, 4, 8, 16, 32
   minutes pass until the next one, and from the seventh claim on at least an hour.  The row is due
   again exactly that long after its last claim, and it counts every claim as an attempt.
   */
  lemma RunIsPaced(at: int, es: seq<Event>)
    requires Legal(Queued(at), es)
    ensures var l := After(Queued(at), es);
      && l.row.attempts == |l.claims|
      && (forall k :: 0 <= k < |l.claims| - 1 && k <= 5 ==> l.claims[k + 1] - l.claims[k] >= [60, 120, 240, 480, 960, 1920][k])
      && (forall k :: 0 <= k < |l.claims| - 1 && k >= 6 ==> l.claims[k + 1] - l.claims[k] >= 3600)
      && (1 <= |l.claims| <= 6 ==> l.row.nextAt == l.claims[|l.claims| - 1] + [60, 120, 240, 480, 960, 1920][|l.claims| - 1])
      && (|l.claims| >= 7 ==> l.row.nextAt == l.claims[|l.claims| - 1] + 3600)
  {
    PacedRun(at, es);
    PacedSpelledOut(After(Queued(at), es));
  }

  lemma PacedSpelledOut(l: Life)
    requires Paced(l)
    ensures forall k :: 0 <= k < |l.claims| - 1 && k <= 5 ==> l.claims[k + 1] - l.claims[k] >= [60, 120, 240, 480, 960, 1920][k]
    ensures forall k :: 0 <= k < |l.claims| - 1 && k >= 6 ==> l.claims[k + 1] - l.claims[k] >= 3600
    ensures 1 <= |l.claims| <= 6 ==> l.row.nextAt == l.claims[|l.claims| - 1] + [60, 120, 240, 480, 960, 1920][|l.claims| - 1]
    ensures |l.claims| >= 7 ==> l.row.nextAt == l.claims[|l.claims| - 1] + 3600
  {
    forall k: nat {
      BackoffIsPace(k);
    }
  }

  /** And a pending row is due again at most an hour, and at least a minute, after its last claim. */
  lemma DueAgainWithinTheHour(at: int, es: seq<Event>)
    requires Legal(Queued(at), es) && After(Queued(at), es).claims != []
    ensures var l := After(Queued(at), es);
      60 <= l.row.nextAt - l.claims[|l.claims| - 1] <= 3600
  {
    PacedRun(at, es);
    assert Paced(After(Queued(at), es));
  }

  predicate Outcome(e: Event) {
    e.Delivered? || e.Refused?
  }

  /**
   A notification is never lost: as long as no outcome is recorded the row stays pending and
   becomes due again within the hour.  As far as the row itself is concerned it can be claimed
   then iff its backoff still fits the integer cast; `ClaimTakesIff` is the condition on the
   whole table.
   */
  lemma {:induction false} PendingUntilAnOutcome(at: int, es: seq<Event>, now: int)
    requires Legal(Queued(at), es)
    requires forall k :: 0 <= k < |es| ==> !Outcome(es[k])
    requires var l := After(Queued(at), es);
      now >= if l.claims == [] then at else l.claims[|l.claims| - 1] + 3600
    ensures var l := After(Queued(at), es);
      Due(l.row, now) && (Enabled(l, Claim(now)) <==> l.row.attempts <= 30)
  {
    PacedRun(at, es);
    StaysPending(at, es);
    OverflowsFrom31(After(Queued(at), es).row);
    if After(Queued(at), es).claims == [] {
      UnclaimedIsUntouched(at, es);
    }
  }

  lemma {:induction false} StaysPending(at: int, es: seq<Event>)
    requires forall k :: 0 <= k < |es| ==> !Outcome(es[k])
    ensures After(Queued(at), es).row.status == Pending
  {
    if es != [] {
      StaysPending(at, es[..|es| - 1]);
      assert !Outcome(es[|es| - 1]);
    }
  }

  lemma {:induction false} UnclaimedIsUntouched(at: int, es: seq<Event>)
    requires After(Queued(at), es).claims == []
    ensures After(Queued(at), es).row.nextAt == at
  {
    if es != [] {
      UnclaimedIsUntouched(at, es[..|es| - 1]);
    }
  }

  lemma {:induction false} Pow2Monotone(m: nat, n: nat)
    requires m <= n
    ensures Pow2(m) <= Pow2(n)
  {
    if m < n {
      Pow2Monotone(m, n - 1);
    }
  }

  lemma OverflowsFrom31(r: Row)
    ensures Overflows(r) <==> r.attempts >= 31
  {
    assert Pow2(8) == 256;
    assert Pow2(16) == 65536;
    assert Pow2(24) == 0x100_0000;
    assert Pow2(30) == 0x4000_0000;
    assert Pow2(31) == 0x8000_0000;
    if r.attempts >= 31 {
      Pow2Monotone(31, r.attempts);
    } else {
      Pow2Monotone(r.attempts, 30);
    }
  }

  /** The run in which `n` workers in a row die between claim and outcome. */
  function Abandoned(at: int, n: nat): seq<Event> {
    if n == 0 then [] else Abandoned(at, n - 1) + [Claim(at + (n - 1) * 60 * MINUTE), Lost(n)]
  }

  lemma {:induction false} AbandonedRun(at: int, n: nat)
    requires n <= 31
    ensures Legal(Queued(at), Abandoned(at, n))
    ensures var l := After(Queued(at), Abandoned(at, n));
      && l.row.attempts == n && l.inFlight == {}
      && l.row.status.Pending? && l.row.nextAt <= at + n * 60 * MINUTE
  {
    if n > 0 {
      AbandonedRun(at, n - 1);
      var es := Abandoned(at, n - 1);
      var claim := Claim(at + (n - 1) * 60 * MINUTE);
      OverflowsFrom31(After(Queued(at), es).row);
      OneMore(Queued(at), es, claim);
      OneMore(Queued(at), es + [claim], Lost(n));
      assert Abandoned(at, n) == es + [claim] + [Lost(n)];
    }
  }

  /**
   The one way a row gets stuck: after 31 claims without an outcome the row is still pending
   and due, but computing its backoff overflows, so no claim can take it up again.
   */
  lemma ThirtyOneLostOutcomesStickARow(at: int)
    ensures Legal(Queued(at), Abandoned(at, 31))
    ensures var l := After(Queued(at), Abandoned(at, 31));
      l.row.status.Pending? && l.inFlight == {} && forall now :: !Enabled(l, Claim(now))
  {
    AbandonedRun(at, 31);
    OverflowsFrom31(After(Queued(at), Abandoned(at, 31)).row);
  }

  /**
   A settled row stays as it is in every continuation exactly when no claim is still waiting for
   its outcome: the outcome statements have no status guard, so a late outcome overwrites it.
   */
  lemma SettledForeverIff(l: Life)
    requires !l.row.status.Pending?
    ensures (forall es :: Legal(l, es) ==> After(l, es).row == l.row) <==> l.inFlight == {}
  {
    if l.inFlight == {} {
      forall es | Legal(l, es)
        ensures After(l, es).row == l.row
      {
        SettledWhenIdle(l, es);
      }
    } else {
      var a :| a in l.inFlight;
      var late := if l.row.status.Sent? then Refused(a) else Delivered(a);
      OneMore(l, [], late);
      assert Legal(l, [] + [late]) && After(l, [] + [late]).row != l.row;
    }
  }

  lemma {:induction false} SettledWhenIdle(l: Life, es: seq<Event>)
    requires !l.row.status.Pending? && l.inFlight == {} && Legal(l, es)
    ensures es == []
  {
    if es != [] {
      SettledWhenIdle(l, es[..|es| - 1]);
    }
  }

  /** Two overlapping claims: the second send succeeds, the first fails late, and it is sent again. */
  lemma LateErrorSendsAgain()
    ensures var es := [Claim(0), Claim(MINUTE), Delivered(2), Refused(1), Claim(3 * MINUTE)];
      && Legal(Queued(0), es)
      && After(Queued(0), es[..3]).row.status == Sent
      && After(Queued(0), es).inFlight == {3}
  {
    var es := [Claim(0), Claim(MINUTE), Delivered(2), Refused(1), Claim(3 * MINUTE)];
    assert Pow2(1) == 2;
    TwoClaimsOverlap();
    OneMore(Queued(0), es[..2], es[2]);
    assert es[..3] == es[..2] + [es[2]];
    OneMore(Queued(0), es[..3], es[3]);
    assert es[..4] == es[..3] + [es[3]];
    OneMore(Queued(0), es[..4], es[4]);
    assert es == es[..4] + [es[4]];
  }

  lemma TwoClaimsOverlap()
    ensures var es := [Claim(0), Claim(MINUTE)];
      Legal(Queued(0), es) && After(Queued(0), es) == Life(Row(Pending, 2, 3 * MINUTE), {1, 2}, [0, MINUTE], 0)
  {
    assert Pow2(1) == 2;
    OneMore(Queued(0), [], Claim(0));
    OneMore(Queued(0), [] + [Claim(0)], Claim(MINUTE));
    assert [] + [Claim(0)] + [Claim(MINUTE)] == [Claim(0), Claim(MINUTE)];
  }

  // ---------------------------------------------------------------------
  // Runs in which every claim is over before the next one

  /** A row is claimed only when the outcome of every earlier claim is recorded or given up. */
  predicate Serial(l: Life, es: seq<Event>) {
    es == [] || (Serial(l, es[..|es| - 1])
                 && (es[|es| - 1].Claim? ==> After(l, es[..|es| - 1]).inFlight == {}))
  }

  predicate HasDelivered(es: seq<Event>) {
    exists k :: 0 <= k < |es| && es[k].Delivered?
  }

  predicate SpentBudget(es: seq<Event>) {
    exists k :: 0 <= k < |es| && es[k].Refused? && es[k].attempt >= MAX_ATTEMPTS
  }

  ghost predicate SerialInv(l: Life, es: seq<Event>) {
    && l.inFlight <= {l.row.attempts}
    && (l.inFlight != {} ==> l.row.status.Pending?)
    && l.row.attempts <= MAX_ATTEMPTS + l.lost
    && (l.inFlight == {} && l.row.status.Pending? ==> l.row.attempts < MAX_ATTEMPTS + l.lost)
    && (l.row.status.Sent? <==> HasDelivered(es))
    && (l.row.status.Failed? <==> SpentBudget(es))
  }

  lemma HasDeliveredExtends(es: seq<Event>, e: Event)
    ensures HasDelivered(es + [e]) <==> HasDelivered(es) || e.Delivered?
    ensures SpentBudget(es + [e]) <==> SpentBudget(es) || (e.Refused? && e.attempt >= MAX_ATTEMPTS)
  {
    var all := es + [e];
    assert all[|es|] == e && forall k :: 0 <= k < |es| ==> all[k] == es[k];
  }

  lemma {:induction false} SerialRunKeepsInv(at: int, es: seq<Event>)
    requires Legal(Queued(at), es) && Serial(Queued(at), es)
    ensures SerialInv(After(Queued(at), es), es)
  {
    if es != [] {
      var before := es[..|es| - 1];
      SerialRunKeepsInv(at, before);
      assert es == before + [es[|es| - 1]];
      HasDeliveredExtends(before, es[|es| - 1]);
    }
  }

  /**
   In a serial run the row is marked sent exactly if a send succeeded and failed exactly if the
   fifth or a later attempt was refused, and it is tried at most five times plus once for each
   outcome that was never recorded.
   */
  lemma SerialRun(at: int, es: seq<Event>)
    requires Legal(Queued(at), es) && Serial(Queued(at), es)
    ensures var l := After(Queued(at), es);
      && (l.row.status == Sent <==> exists k :: 0 <= k < |es| && es[k].Delivered?)
      && (l.row.status == Failed <==> exists k :: 0 <= k < |es| && es[k].Refused? && es[k].attempt >= 5)
      && |l.claims| <= 5 + |set k | 0 <= k < |es| && es[k].Lost?|
      && |l.claims| == |set k | 0 <= k < |es| && es[k].Claim?|
  {
    SerialRunKeepsInv(at, es);
    PacedRun(at, es);
    ClaimsAndLosses(at, es);
    assert Positions(es, (e: Event) => e.Lost?) == set k | 0 <= k < |es| && es[k].Lost?;
    assert Positions(es, (e: Event) => e.Claim?) == set k | 0 <= k < |es| && es[k].Claim?;
  }

  /** The positions of a run at which `p` holds. */
  function Positions(es: seq<Event>, p: Event -> bool): set<int> {
    set k | 0 <= k < |es| && p(es[k])
  }

  lemma PositionsExtend(es: seq<Event>, p: Event -> bool)
    requires es != []
    ensures |Positions(es, p)| == |Positions(es[..|es| - 1], p)| + if p(es[|es| - 1]) then 1 else 0
  {
    var n := |es| - 1;
    assert Positions(es, p) == Positions(es[..n], p) + if p(es[n]) then {n} else {};
  }

  /** A life counts the claims and the lost outcomes of its run. */
  lemma {:induction false} ClaimsAndLosses(at: int, es: seq<Event>)
    ensures After(Queued(at), es).lost == |Positions(es, (e: Event) => e.Lost?)|
    ensures |After(Queued(at), es).claims| == |Positions(es, (e: Event) => e.Claim?)|
  {
    if es != [] {
      ClaimsAndLosses(at, es[..|es| - 1]);
      PositionsExtend(es, (e: Event) => e.Lost?);
      PositionsExtend(es, (e: Event) => e.Claim?);
    }
  }

  /** In a serial run sent and failed are absorbing: nothing at all follows them. */
  lemma {:induction false} SerialRunEndsSettled(at: int, es: seq<Event>, n: nat)
    requires Legal(Queued(at), es) && Serial(Queued(at), es) && n <= |es|
    requires !After(Queued(at), es[..n]).row.status.Pending?
    ensures n == |es|
  {
    if n < |es| {
      var before := es[..|es| - 1];
      assert before[..n] == es[..n];
      SerialRunEndsSettled(at, before, n);
      assert before == es[..n];
      SerialRunKeepsInv(at, before);
    }
  }

  // ---------------------------------------------------------------------
  // The table

  datatype Claimed = Claimed(id: nat, attempts: nat)

  datatype Error = IntegerOutOfRange

  predicate Eligible(rows: seq<Row>, now: int, locked: set<nat>, id: int) {
    0 <= id < |rows| && Due(rows[id], now) && id !in locked
  }

  /** The due, unlocked rows among the first `upto` in creation order, at most `limit` of them. */
  function DueIds(rows: seq<Row>, now: int, locked: set<nat>, limit: nat, upto: nat): (ids: seq<nat>)
    requires upto <= |rows|
    ensures forall k :: 0 <= k < |ids| ==> ids[k] < upto
  {
    if upto == 0 then []
    else
      var before := DueIds(rows, now, locked, limit, upto - 1);
      if Eligible(rows, now, locked, upto - 1) && |before| < limit then before + [upto - 1] else before
  }

  function Selected(rows: seq<Row>, now: int, locked: set<nat>, limit: nat): (ids: seq<nat>)
    ensures forall k :: 0 <= k < |ids| ==> ids[k] < |rows|
  {
    DueIds(rows, now, locked, limit, |rows|)
  }

  lemma {:induction false} OldestEligible(rows: seq<Row>, now: int, locked: set<nat>, limit: nat, upto: nat)
    requires upto <= |rows|
    ensures var ids := DueIds(rows, now, locked, limit, upto);
      && |ids| <= limit
      && (forall k :: 0 <= k < |ids| ==> Eligible(rows, now, locked, ids[k]) && ids[k] < upto)
      && (forall j, k :: 0 <= j < k < |ids| ==> ids[j] < ids[k])
      && (forall id :: Eligible(rows, now, locked, id) && id < upto && id !in ids ==>
            |ids| == limit && forall k :: 0 <= k < |ids| ==> ids[k] < id)
  {
    if upto > 0 {
      OldestEligible(rows, now, locked, limit, upto - 1);
    }
  }

  /**
   The claim takes only due, unlocked rows, each once and oldest first, never more than the
   limit, and it leaves such a row only if the batch is full of older ones.
   */
  lemma SelectedIsOldestDue(rows: seq<Row>, now: int, locked: set<nat>, limit: nat)
    ensures var ids := Selected(rows, now, locked, limit);
      && |ids| <= limit
      && (forall k :: 0 <= k < |ids| ==>
            rows[ids[k]].status == Pending && rows[ids[k]].nextAt <= now && ids[k] !in locked)
      && (forall j, k :: 0 <= j < k < |ids| ==> ids[j] < ids[k])
      && (forall id :: 0 <= id < |rows| && rows[id].status == Pending && rows[id].nextAt <= now && id !in locked && id !in ids ==>
            |ids| == limit && forall k :: 0 <= k < |ids| ==> ids[k] < id)
  {
    OldestEligible(rows, now, locked, limit, |rows|);
    forall id: nat | id < |rows|
      ensures Eligible(rows, now, locked, id) <==> rows[id].status == Pending && rows[id].nextAt <= now && id !in locked
    {
    }
  }

  function ClaimRows(rows: seq<Row>, ids: seq<nat>, now: int): seq<Row> {
    seq(|rows|, k requires 0 <= k < |rows| => if k in ids then ClaimRow(rows[k], now) else rows[k])
  }

  /** Some selected row's backoff does not fit the cast, which fails the whole statement. */
  predicate AnyOverflow(rows: seq<Row>, ids: seq<nat>) {
    exists k :: 0 <= k < |ids| && ids[k] < |rows| && Overflows(rows[ids[k]])
  }

  /** The table after one claim statement. */
  function ClaimTable(rows: seq<Row>, now: int, locked: set<nat>, limit: nat): seq<Row> {
    var ids := Selected(rows, now, locked, limit);
    if AnyOverflow(rows, ids) then rows else ClaimRows(rows, ids, now)
  }

  /** The eligible rows created before `upto`. */
  function EligibleBefore(rows: seq<Row>, now: int, locked: set<nat>, upto: nat): nat
    requires upto <= |rows|
  {
    if upto == 0 then 0
    else EligibleBefore(rows, now, locked, upto - 1) + if Eligible(rows, now, locked, upto - 1) then 1 else 0
  }

  lemma {:induction false} SelectedCounts(rows: seq<Row>, now: int, locked: set<nat>, limit: nat, upto: nat)
    requires upto <= |rows|
    ensures var before := EligibleBefore(rows, now, locked, upto);
      |DueIds(rows, now, locked, limit, upto)| == if before < limit then before else limit
  {
    if upto > 0 {
      SelectedCounts(rows, now, locked, limit, upto - 1);
    }
  }

  predicate InBatch(rows: seq<Row>, now: int, locked: set<nat>, limit: nat, id: int) {
    Eligible(rows, now, locked, id) && EligibleBefore(rows, now, locked, id) < limit
  }

  lemma {:induction false} SelectedIffInBatch(rows: seq<Row>, now: int, locked: set<nat>, limit: nat, upto: nat, id: nat)
    requires upto <= |rows|
    ensures id in DueIds(rows, now, locked, limit, upto) <==> id < upto && InBatch(rows, now, locked, limit, id)
  {
    if upto > 0 {
      SelectedIffInBatch(rows, now, locked, limit, upto - 1, id);
      SelectedCounts(rows, now, locked, limit, upto - 1);
    }
  }

  /**
   Exactly when a claim takes a row: it is due and unlocked, fewer than `limit` such rows are
   older, and none of the rows taken with it has been claimed more than 30 times.
   */
  lemma ClaimTakesIff(rows: seq<Row>, now: int, locked: set<nat>, limit: nat, id: nat)
    requires id < |rows|
    ensures ClaimTable(rows, now, locked, limit)[id].attempts > rows[id].attempts <==>
      InBatch(rows, now, locked, limit, id)
      && forall q :: InBatch(rows, now, locked, limit, q) ==> rows[q].attempts <= 30
  {
    var ids := Selected(rows, now, locked, limit);
    SelectedIffInBatch(rows, now, locked, limit, |rows|, id);
    OverflowIff(rows, now, locked, limit);
  }

  lemma OverflowIff(rows: seq<Row>, now: int, locked: set<nat>, limit: nat)
    ensures AnyOverflow(rows, Selected(rows, now, locked, limit)) <==>
      exists q :: InBatch(rows, now, locked, limit, q) && rows[q].attempts > 30
  {
    var ids := Selected(rows, now, locked, limit);
    if k :| 0 <= k < |ids| && ids[k] < |rows| && Overflows(rows[ids[k]]) {
      SelectedIffInBatch(rows, now, locked, limit, |rows|, ids[k]);
      OverflowsFrom31(rows[ids[k]]);
    }
    if q :| InBatch(rows, now, locked, limit, q) && rows[q].attempts > 30 {
      SelectedIffInBatch(rows, now, locked, limit, |rows|, q);
      OverflowsFrom31(rows[q]);
      var k :| 0 <= k < |ids| && ids[k] == q;
    }
  }

  // ---------------------------------------------------------------------
  // One stuck row stops the tenant

  datatype TableEvent =
    | Claims(now: int, locked: set<nat>)
    | Sends(id: nat)
    | Fails(id: nat, attempt: nat)
    | Enqueues(at: int)

  function TableStep(rows: seq<Row>, e: TableEvent, limit: nat): seq<Row> {
    match e
    case Claims(now, locked) => ClaimTable(rows, now, locked, limit)
    case Sends(id) => if id < |rows| then rows[id := SentRow(rows[id])] else rows
    case Fails(id, attempt) => if id < |rows| then rows[id := ErrorRow(rows[id], attempt)] else rows
    case Enqueues(at) => rows + [Row(Pending, 0, at)]
  }

  function TableAfter(rows: seq<Row>, es: seq<TableEvent>, limit: nat): seq<Row> {
    if es == [] then rows else TableStep(TableAfter(rows, es[..|es| - 1], limit), es[|es| - 1], limit)
  }

  function PendingBefore(rows: seq<Row>, upto: nat): nat
    requires upto <= |rows|
  {
    if upto == 0 then 0 else PendingBefore(rows, upto - 1) + if rows[upto - 1].status.Pending? then 1 else 0
  }

  lemma {:induction false} EligibleArePending(rows: seq<Row>, now: int, locked: set<nat>, upto: nat)
    requires upto <= |rows|
    ensures EligibleBefore(rows, now, locked, upto) <= PendingBefore(rows, upto)
  {
    if upto > 0 {
      EligibleArePending(rows, now, locked, upto - 1);
    }
  }

  /** Rows that only leave pending can only lower the count. */
  lemma {:induction false} FewerPending(a: seq<Row>, b: seq<Row>, upto: nat)
    requires upto <= |a| && upto <= |b|
    requires forall k :: 0 <= k < upto && b[k].status.Pending? ==> a[k].status.Pending?
    ensures PendingBefore(b, upto) <= PendingBefore(a, upto)
  {
    if upto > 0 {
      FewerPending(a, b, upto - 1);
    }
  }

  ghost function PendingSet(rows: seq<Row>, upto: nat): set<int>
    requires upto <= |rows|
  {
    set k | 0 <= k < upto && rows[k].status == Pending
  }

  lemma {:induction false} PendingCounts(rows: seq<Row>, upto: nat)
    requires upto <= |rows|
    ensures PendingBefore(rows, upto) == |PendingSet(rows, upto)|
  {
    if upto > 0 {
      PendingCounts(rows, upto - 1);
      assert PendingSet(rows, upto) == PendingSet(rows, upto - 1) + if rows[upto - 1].status == Pending then {upto - 1} else {};
    }
  }

  /** Exactly when a pending row is stuck: 31 claims, and fewer pending rows before it than fit a batch. */
  lemma StuckIff(rows: seq<Row>, p: nat, limit: nat)
    requires p < |rows| && rows[p].status == Pending
    ensures Stuck(rows, p, limit) <==> rows[p].attempts >= 31 && |set k | 0 <= k < p && rows[k].status == Pending| < limit
  {
    PendingCounts(rows, p);
    assert PendingSet(rows, p) == set k | 0 <= k < p && rows[k].status == Pending;
  }

  /** What each event does to the rows, one by one; claims are characterised by ClaimTakesIff and BatchIsRowEvents. */
  lemma TableStepOnRows(rows: seq<Row>, e: TableEvent, limit: nat)
    ensures var after := TableStep(rows, e, limit);
      match e
      case Claims(_, _) => |after| == |rows|
      case Enqueues(at) => after == rows + [Queued(at).row] && Queued(at).row == Row(Pending, 0, at)
      case Sends(id) => |after| == |rows| && forall k :: 0 <= k < |rows| ==>
        after[k] == if k == id then Row(Sent, rows[k].attempts, rows[k].nextAt) else rows[k]
      case Fails(id, attempt) => |after| == |rows| && forall k :: 0 <= k < |rows| ==>
        after[k] == if k == id then Row(if attempt >= 5 then Failed else Pending, rows[k].attempts, rows[k].nextAt) else rows[k]
  {
  }

  /** A pending row whose backoff overflows, with room for it in every batch. */
  ghost predicate Stuck(rows: seq<Row>, p: nat, limit: nat) {
    p < |rows| && rows[p].status.Pending? && rows[p].attempts > 30 && PendingBefore(rows, p) < limit
  }

  /**
   What may happen around it: claims that find it due and unlocked, new rows, and outcomes of other
   rows that are still pending (an error never reopens a settled row).
   */
  predicate Around(rows: seq<Row>, p: nat, e: TableEvent)
    requires p < |rows|
  {
    match e
    case Claims(now, locked) => rows[p].nextAt <= now && p !in locked
    case Sends(id) => id != p
    case Fails(id, _) => id != p && (id < |rows| ==> rows[id].status.Pending?)
    case Enqueues(_) => true
  }

  ghost predicate AllAround(rows: seq<Row>, es: seq<TableEvent>, p: nat, limit: nat) {
    es == [] || (AllAround(rows, es[..|es| - 1], p, limit)
                 && p < |TableAfter(rows, es[..|es| - 1], limit)|
                 && Around(TableAfter(rows, es[..|es| - 1], limit), p, es[|es| - 1]))
  }

  lemma StuckStep(rows: seq<Row>, p: nat, e: TableEvent, limit: nat)
    requires Stuck(rows, p, limit) && Around(rows, p, e)
    ensures var after := TableStep(rows, e, limit);
      && Stuck(after, p, limit) && |rows| <= |after|
      && (e.Claims? ==> after == rows)
      && forall k :: 0 <= k < |rows| ==> after[k].attempts == rows[k].attempts && after[k].nextAt == rows[k].nextAt
  {
    var after := TableStep(rows, e, limit);
    if e.Claims? {
      EligibleArePending(rows, e.now, e.locked, p);
      assert InBatch(rows, e.now, e.locked, limit, p);
      OverflowIff(rows, e.now, e.locked, limit);
    } else {
      FewerPending(rows, after, p);
    }
  }

  /**
   A single stuck row that fits the batch stops the whole tenant: from then on every claim fails,
   and no row, however fresh, is ever claimed again.
   */
  lemma {:induction false} StuckRowStopsTheTenant(rows: seq<Row>, es: seq<TableEvent>, p: nat, limit: nat)
    requires Stuck(rows, p, limit) && AllAround(rows, es, p, limit)
    ensures var after := TableAfter(rows, es, limit);
      && Stuck(after, p, limit) && |rows| <= |after|
      && forall k :: 0 <= k < |rows| ==> after[k].attempts == rows[k].attempts
  {
    if es != [] {
      StuckRowStopsTheTenant(rows, es[..|es| - 1], p, limit);
      StuckStep(TableAfter(rows, es[..|es| - 1], limit), p, es[|es| - 1], limit);
    }
  }

  /** What became of one claimed notification. */
  datatype Fate = Succeeds | Refuses | Unrecorded

  function Concluded(r: Row, fate: Fate): Row {
    match fate
    case Succeeds => SentRow(r)
    case Refuses => ErrorRow(r, r.attempts)
    case Unrecorded => r
  }

  function ConcludeRows(rows: seq<Row>, ids: seq<nat>, fates: nat -> Fate): seq<Row> {
    seq(|rows|, k requires 0 <= k < |rows| => if k in ids then Concluded(rows[k], fates(k)) else rows[k])
  }

  lemma ConcludeOneMore(rows: seq<Row>, ids: seq<nat>, i: nat, fates: nat -> Fate)
    requires i < |ids| && ids[i] < |rows| && ids[i] !in ids[..i]
    ensures ConcludeRows(rows, ids[..i + 1], fates)
         == ConcludeRows(rows, ids[..i], fates)[ids[i] := Concluded(rows[ids[i]], fates(ids[i]))]
  {
    assert ids[..i + 1] == ids[..i] + [ids[i]];
  }

  /** A worker's batch is, for each row it took, one claim followed by that row's outcome event. */
  lemma BatchIsRowEvents(rows: seq<Row>, now: int, locked: set<nat>, limit: nat, fates: nat -> Fate, id: nat, l: Life)
    requires id < |rows| && l.row == rows[id] && l.inFlight == {}
    requires id in Selected(rows, now, locked, limit) && !AnyOverflow(rows, Selected(rows, now, locked, limit))
    ensures var ids := Selected(rows, now, locked, limit);
      var a := rows[id].attempts + 1;
      var outcome := match fates(id) case Succeeds => Delivered(a) case Refuses => Refused(a) case Unrecorded => Lost(a);
      && Enabled(l, Claim(now)) && Enabled(Apply(l, Claim(now)), outcome)
      && ConcludeRows(ClaimTable(rows, now, locked, limit), ids, fates)[id] == Apply(Apply(l, Claim(now)), outcome).row
  {
    SelectedIsOldestDue(rows, now, locked, limit);
  }

  /** Rows outside the batch stay as they were. */
  lemma BatchLeavesOthers(rows: seq<Row>, now: int, locked: set<nat>, limit: nat, fates: nat -> Fate)
    ensures var ids := Selected(rows, now, locked, limit);
      var after := ConcludeRows(ClaimTable(rows, now, locked, limit), ids, fates);
      |after| == |rows| && forall id :: 0 <= id < |rows| && id !in ids ==> after[id] == rows[id]
  {
  }

  /** What one claim does to a row: one attempt more, and its next one after the backoff written out. */
  ghost predicate Rescheduled(before: Row, after: Row, now: int) {
    && after.status == before.status && after.attempts == before.attempts + 1
    && (before.attempts <= 5 ==> after.nextAt == now + [60, 120, 240, 480, 960, 1920][before.attempts])
    && (before.attempts >= 6 ==> after.nextAt == now + 3600)
  }

  lemma ClaimedAreRescheduled(rows: seq<Row>, ids: seq<nat>, now: int)
    ensures |ClaimRows(rows, ids, now)| == |rows|
    ensures forall id :: 0 <= id < |rows| ==>
              if id in ids then Rescheduled(rows[id], ClaimRows(rows, ids, now)[id], now) else ClaimRows(rows, ids, now)[id] == rows[id]
  {
    forall k: nat {
      BackoffIsPace(k);
    }
  }

  lemma AnyOverflowIff(rows: seq<Row>, ids: seq<nat>)
    requires forall k :: 0 <= k < |ids| ==> ids[k] < |rows|
    ensures AnyOverflow(rows, ids) <==> exists k :: 0 <= k < |ids| && rows[ids[k]].attempts > 30
  {
    forall k | 0 <= k < |ids| {
      OverflowsFrom31(rows[ids[k]]);
    }
  }

  /** The rows handed to the sender: each selected one with the attempt number it was just given. */
  ghost predicate Handed(before: seq<Row>, ids: seq<nat>, claimed: seq<Claimed>)
    requires forall k :: 0 <= k < |ids| ==> ids[k] < |before|
  {
    |claimed| == |ids| && forall k :: 0 <= k < |ids| ==> claimed[k] == Claimed(ids[k], before[ids[k]].attempts + 1)
  }

  /** All of them rescheduled, and every other row as it was. */
  ghost predicate AllRescheduled(before: seq<Row>, ids: seq<nat>, now: int, after: seq<Row>) {
    |after| == |before|
    && forall id :: 0 <= id < |after| ==> if id in ids then Rescheduled(before[id], after[id], now) else after[id] == before[id]
  }

  lemma ClaimedAreHanded(before: seq<Row>, ids: seq<nat>, now: int, claimed: seq<Claimed>)
    requires forall k :: 0 <= k < |ids| ==> ids[k] < |before|
    requires |claimed| == |ids| && forall k :: 0 <= k < |ids| ==> claimed[k] == Claimed(ids[k], ClaimRows(before, ids, now)[ids[k]].attempts)
    ensures Handed(before, ids, claimed) && AllRescheduled(before, ids, now, ClaimRows(before, ids, now))
  {
    ClaimedAreRescheduled(before, ids, now);
  }

  /** The table notification_deliveries of one tenant; a row's id is its creation rank. */
  class Deliveries {
    var rows: seq<Row>

    /**
     ClaimDueDeliveries; `locked` are the rows other workers hold, which SKIP LOCKED passes over.
     `Selected` is characterised by SelectedIsOldestDue.
     */
    method ClaimDueDeliveries(now: int, limit: nat, locked: set<nat>) returns (r: Result<seq<Claimed>, Error>)
      modifies this
      ensures rows == ClaimTable(old(rows), now, locked, limit)
      ensures var before, ids := old(rows), Selected(old(rows), now, locked, limit);
        if exists k :: 0 <= k < |ids| && before[ids[k]].attempts > 30 then r == Err(IntegerOutOfRange) && rows == before
        else r.Ok? && AllRescheduled(before, ids, now, rows) && Handed(before, ids, r.value)
    {
      ghost var before := rows;
      var ids := Selected(rows, now, locked, limit);
      AnyOverflowIff(rows, ids);
      if AnyOverflow(rows, ids) {
        return Err(IntegerOutOfRange);
      }
      rows := ClaimRows(rows, ids, now);
      var out := ReadBack(ids);
      ClaimedAreHanded(before, ids, now, out);
      r := Ok(out);
    }

    /** The rows RETURNING lists. */
    method ReadBack(ids: seq<nat>) returns (out: seq<Claimed>)
      requires forall k :: 0 <= k < |ids| ==> ids[k] < |rows|
      ensures |out| == |ids| && forall k :: 0 <= k < |ids| ==> out[k] == Claimed(ids[k], rows[ids[k]].attempts)
    {
      out := [];
      while |out| < |ids|
        invariant |out| <= |ids|
        invariant forall k :: 0 <= k < |out| ==> out[k] == Claimed(ids[k], rows[ids[k]].attempts)
      {
        out := out + [Claimed(ids[|out|], rows[ids[|out|]].attempts)];
      }
    }

    method MarkDeliverySent(id: nat)
      modifies this
      ensures rows == if id < |old(rows)| then old(rows)[id := old(rows)[id].(status := Sent)] else old(rows)
    {
      if id < |rows| {
        rows := rows[id := rows[id].(status := Sent)];
      }
    }

    method MarkDeliveryError(id: nat, attempt: nat)
      modifies this
      ensures rows == if id < |old(rows)|
                      then old(rows)[id := old(rows)[id].(status := if attempt >= 5 then Failed else Pending)] else old(rows)
    {
      var status := Pending;
      if attempt >= MAX_ATTEMPTS {
        status := Failed;
      }
      if id < |rows| {
        rows := rows[id := rows[id].(status := status)];
      }
    }

    /**
     deliverNotifications of one worker.  `fates` says for each row whether its send succeeds,
     fails, or has an outcome that could not be recorded.
     */
    method DeliverNotifications(now: int, limit: nat, locked: set<nat>, fates: nat -> Fate)
      returns (r: Result<(), Error>)
      modifies this
      ensures var ids := Selected(old(rows), now, locked, limit);
        if AnyOverflow(old(rows), ids) then
          r.Err? && rows == old(rows)
        else
          r.Ok? && rows == ConcludeRows(ClaimRows(old(rows), ids, now), ids, fates)
    {
      ghost var ids := Selected(rows, now, locked, limit);
      SelectedIsOldestDue(rows, now, locked, limit);
      var claim := ClaimDueDeliveries(now, limit, locked);
      if claim.Err? {
        return Err(claim.error);
      }
      ConcludeAll(claim.value, ids, fates);
      r := Ok(());
    }

    method ConcludeAll(jobs: seq<Claimed>, ghost ids: seq<nat>, fates: nat -> Fate)
      requires |jobs| == |ids| && forall k :: 0 <= k < |ids| ==> ids[k] < |rows| && jobs[k] == Claimed(ids[k], rows[ids[k]].attempts)
      requires forall j, k :: 0 <= j < k < |ids| ==> ids[j] < ids[k]
      modifies this
      ensures rows == ConcludeRows(old(rows), ids, fates)
    {
      var i := 0;
      while i < |jobs|
        invariant 0 <= i <= |jobs|
        invariant rows == ConcludeRows(old(rows), ids[..i], fates)
      {
        assert ids[i] !in ids[..i];
        ConcludeOneMore(old(rows), ids, i, fates);
        Conclude(jobs[i], fates(jobs[i].id));
        i := i + 1;
      }
      assert ids[..i] == ids;
    }

    /** One turn of that loop: the send, then the transaction that records its outcome. */
    method Conclude(j: Claimed, fate: Fate)
      requires j.id < |rows| && rows[j.id].attempts == j.attempts
      modifies this
      ensures rows == old(rows)[j.id := Concluded(old(rows)[j.id], fate)]
    {
      match fate {
        case Succeeds => MarkDeliverySent(j.id);
        case Refuses => MarkDeliveryError(j.id, j.attempts);
        case Unrecorded =>
      }
    }
  }
}
