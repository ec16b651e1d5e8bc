/**
 The agent's signed self-update (agent/internal/update/update.go:70-243 and
 agent/internal/conn/conn.go:499-564).

 Verify, Apply, ConfirmHealthy and Rollback work on five files: the executable, its `.prev`, the
 staged temporary, the rollback marker and the marker's temporary.  Every file operation may
 fail and the process may die after any of them, so each operation is a little program of steps
 driven by a fault schedule, `ok(n)` telling whether its n-th file operation succeeds.
 Renames and removals are atomic.
 */
module SelfUpdate {
  import opened Wrappers

  /** The exact bytes of one executable. */
  type Binary = nat

  datatype File = Absent | Partial | Whole(bytes: Binary)

  datatype Disk = Disk(self: File, prev: File, temp: File, markerTmp: Option<string>, marker: Option<string>)

  /** A complete executable is left to start or to put back. */
  predicate Runnable(d: Disk) {
    d.self.Whole? || d.prev.Whole?
  }

  datatype Update = Update(data: Binary, version: string)

  // ---------------------------------------------------------------------
  // Apply

  datatype ApplyPc =
    | Stage | Write | Close | Chmod | DropPrev | BackUp | Install
    | Restore | DropTemp | WriteMarker | MoveMarker | Returned(ok: bool)

  datatype Applying = Applying(pc: ApplyPc, disk: Disk)

  function ApplyStep(s: Applying, u: Update, ok: bool): Applying {
    var d := s.disk;
    match s.pc
    case Stage => if ok then Applying(Write, d.(temp := Partial)) else Applying(Returned(false), d)
    case Write => if ok then Applying(Close, d.(temp := Whole(u.data))) else Applying(DropTemp, d)
    case Close => Applying(if ok then Chmod else DropTemp, d)
    case Chmod => Applying(if ok then DropPrev else DropTemp, d)
    case DropPrev => Applying(BackUp, if ok then d.(prev := Absent) else d)
    case BackUp =>
      if ok && !d.self.Absent? then Applying(Install, d.(prev := d.self, self := Absent)) else Applying(DropTemp, d)
    case Install =>
      if ok && !d.temp.Absent? then Applying(WriteMarker, d.(self := d.temp, temp := Absent)) else Applying(Restore, d)
    case Restore => Applying(DropTemp, if ok && !d.prev.Absent? then d.(self := d.prev, prev := Absent) else d)
    case DropTemp => Applying(Returned(false), if ok then d.(temp := Absent) else d)
    case WriteMarker =>
      if ok then Applying(MoveMarker, d.(markerTmp := Some(u.version))) else Applying(Returned(true), d)
    case MoveMarker =>
      Applying(Returned(true), if ok then d.(marker := d.markerTmp, markerTmp := None) else d)
    case Returned(_) => s
  }

  /** Where Apply is after `n` file operations. */
  function ApplyAt(d: Disk, u: Update, ok: nat -> bool, n: nat): Applying {
    if n == 0 then Applying(Stage, d) else ApplyStep(ApplyAt(d, u, ok, n - 1), u, ok(n - 1))
  }

  /** What each point of Apply has made of the files it started from. */
  ghost predicate ApplyInv(d: Disk, u: Update, s: Applying) {
    var e := s.disk;
    var untouched := e.self == d.self && (e.prev == d.prev || e.prev == Absent);
    var aside := e.self == Absent && e.prev == d.self;
    var replaced := e.self == Whole(u.data) && e.prev == d.self;
    match s.pc
    case Stage => e == d
    case Write => untouched && e.marker == d.marker && e.temp == Partial
    case Close => untouched && e.marker == d.marker && e.temp == Whole(u.data)
    case Chmod => untouched && e.marker == d.marker && e.temp == Whole(u.data)
    case DropPrev => untouched && e.marker == d.marker && e.temp == Whole(u.data)
    case BackUp => untouched && e.marker == d.marker && e.temp == Whole(u.data)
    case Install => aside && e.marker == d.marker && e.temp == Whole(u.data)
    case Restore => aside && e.marker == d.marker && e.temp == Whole(u.data)
    case DropTemp => (untouched || aside) && e.marker == d.marker
    case Returned(false) => (untouched || aside) && e.marker == d.marker
    case WriteMarker => replaced && e.marker == d.marker
    case MoveMarker => replaced && e.marker == d.marker && e.markerTmp == Some(u.version)
    case Returned(true) => replaced && (e.marker == d.marker || e.marker == Some(u.version))
  }

  lemma {:induction false} ApplyKeepsInv(d: Disk, u: Update, ok: nat -> bool, n: nat)
    requires d.self.Whole?
    ensures ApplyInv(d, u, ApplyAt(d, u, ok, n))
  {
    if n > 0 {
      ApplyKeepsInv(d, u, ok, n - 1);
    }
  }

  /**
   However its file operations fail and wherever the process dies, Apply on a complete executable
   leaves a complete one at the path or at `.prev`; and every executable found there is the
   running one, the previous one or the new one.
   */
  lemma ApplyKeepsABinary(d: Disk, u: Update, ok: nat -> bool, n: nat)
    requires d.self.Whole?
    ensures var e := ApplyAt(d, u, ok, n).disk;
      && Runnable(e)
      && e.self in {d.self, Absent, Whole(u.data)} && e.prev in {d.prev, d.self, Absent}
  {
    ApplyKeepsInv(d, u, ok, n);
  }

  function StepsLeft(pc: ApplyPc): nat {
    match pc
    case Stage => 9
    case Write => 8
    case Close => 7
    case Chmod => 6
    case DropPrev => 5
    case BackUp => 4
    case Install => 3
    case Restore => 2
    case WriteMarker => 2
    case DropTemp => 1
    case MoveMarker => 1
    case Returned(_) => 0
  }

  lemma {:induction false} StepsRunOut(d: Disk, u: Update, ok: nat -> bool, n: nat)
    ensures StepsLeft(ApplyAt(d, u, ok, n).pc) <= if n < 9 then 9 - n else 0
  {
    if n > 0 {
      StepsRunOut(d, u, ok, n - 1);
    }
  }

  /**
   What Apply answers: nil exactly when the new executable is in place with the old one at
   `.prev`; an error leaves the old one in place, or at `.prev` if it could not be put back.
   */
  lemma ApplyReturns(d: Disk, u: Update, ok: nat -> bool, n: nat)
    requires d.self.Whole? && n >= 9
    ensures var s := ApplyAt(d, u, ok, n);
      && s.pc.Returned?
      && (s.pc.ok ==> s.disk.self == Whole(u.data) && s.disk.prev == d.self)
      && (!s.pc.ok ==> s.disk.self == d.self || (s.disk.self == Absent && s.disk.prev == d.self))
      && s.disk.marker in {d.marker, Some(u.version)}
      && (!s.pc.ok ==> s.disk.marker == d.marker)
  {
    StepsRunOut(d, u, ok, n);
    ApplyKeepsInv(d, u, ok, n);
  }

  /** Apply never costs the last executable, for every fault schedule and crash point. */
  ghost predicate ApplyIsSafe(d: Disk, u: Update) {
    forall ok: nat -> bool, n :: Runnable(ApplyAt(d, u, ok, n).disk)
  }

  /** Exactly when: the executable is complete at its own path when Apply starts. */
  lemma ApplyIsSafeIff(d: Disk, u: Update)
    requires Runnable(d)
    ensures ApplyIsSafe(d, u) <==> d.self.Whole?
  {
    if d.self.Whole? {
      forall ok: nat -> bool, n
        ensures Runnable(ApplyAt(d, u, ok, n).disk)
      {
        ApplyKeepsABinary(d, u, ok, n);
      }
    } else {
      PrevIsDropped(d, u, (k: nat) => true);
      assert !Runnable(ApplyAt(d, u, (k: nat) => true, 5).disk);
    }
  }

  /** Five good operations: the new executable is staged and `.prev` is gone. */
  lemma PrevIsDropped(d: Disk, u: Update, ok: nat -> bool)
    requires forall k :: 0 <= k < 5 ==> ok(k)
    ensures ApplyAt(d, u, ok, 5) == Applying(BackUp, d.(temp := Whole(u.data), prev := Absent))
  {
    assert ApplyAt(d, u, ok, 1) == Applying(Write, d.(temp := Partial));
    assert ApplyAt(d, u, ok, 2) == Applying(Close, d.(temp := Whole(u.data)));
    assert ApplyAt(d, u, ok, 3).pc == Chmod;
    assert ApplyAt(d, u, ok, 4).pc == DropPrev;
  }

  /** And a sixth: the old one is put aside. */
  lemma PutAside(d: Disk, u: Update, ok: nat -> bool)
    requires !d.self.Absent? && forall k :: 0 <= k < 6 ==> ok(k)
    ensures ApplyAt(d, u, ok, 6) == Applying(Install, d.(temp := Whole(u.data), prev := d.self, self := Absent))
  {
    PrevIsDropped(d, u, ok);
  }

  /** Once Apply has returned nothing more happens. */
  lemma {:induction false} ReturnIsFinal(d: Disk, u: Update, ok: nat -> bool, m: nat, n: nat)
    requires m <= n && ApplyAt(d, u, ok, m).pc.Returned?
    ensures ApplyAt(d, u, ok, n) == ApplyAt(d, u, ok, m)
  {
    if m < n {
      ReturnIsFinal(d, u, ok, m, n - 1);
    }
  }

  lemma NineGoodOperations(d: Disk, u: Update, ok: nat -> bool)
    requires !d.self.Absent? && forall k :: 0 <= k < 9 ==> ok(k)
    ensures ApplyAt(d, u, ok, 9)
         == Applying(Returned(true), Disk(Whole(u.data), d.self, Absent, None, Some(u.version)))
  {
    PutAside(d, u, ok);
    assert ApplyAt(d, u, ok, 7) == Applying(WriteMarker, d.(self := Whole(u.data), prev := d.self, temp := Absent));
    assert ApplyAt(d, u, ok, 8).pc == MoveMarker;
  }

  /** When nothing fails, Apply installs the update, keeps the old executable at `.prev` and leaves the marker. */
  lemma UndisturbedApply(d: Disk, u: Update, ok: nat -> bool, n: nat)
    requires !d.self.Absent? && (forall k :: ok(k)) && ApplyAt(d, u, ok, n).pc.Returned?
    ensures ApplyAt(d, u, ok, n)
         == Applying(Returned(true), Disk(Whole(u.data), d.self, Absent, None, Some(u.version)))
  {
    NineGoodOperations(d, u, ok);
    ReturnIsFinal(d, u, ok, if n <= 9 then n else 9, if n <= 9 then 9 else n);
  }

  /** The operation `j` of an otherwise undisturbed Apply fails. */
  function OnlyFails(j: nat): nat -> bool {
    (k: nat) => k != j
  }

  /**
   One failing operation, wherever it is: before the executable is moved it costs nothing but `.prev`
   at worst, a failed install is undone, the staged file is removed, and once the new
   executable is in place only the marker can be missing.
   */
  lemma OneFaultIsContained(d: Disk, u: Update, j: nat)
    requires d.self.Whole? && j < 9
    ensures var s := ApplyAt(d, u, OnlyFails(j), 9);
      && (j == 0 ==> s == Applying(Returned(false), d))
      && (j in {1, 2, 3} ==> s == Applying(Returned(false), d.(temp := Absent)))
      && (j in {5, 6} ==> s == Applying(Returned(false), d.(prev := Absent, temp := Absent)))
      && (j in {4, 7, 8} ==> s.pc == Returned(true) && s.disk.self == Whole(u.data) && s.disk.prev == d.self && s.disk.temp == Absent)
      && (j == 4 ==> s.disk.marker == Some(u.version))
      && (j in {7, 8} ==> s.disk.marker == d.marker)
  {
    if j <= 4 {
      EarlyFault(d, u, j);
    } else {
      PrevIsDropped(d, u, OnlyFails(j));
      LateFault(d, u, j);
    }
  }

  lemma EarlyFault(d: Disk, u: Update, j: nat)
    requires d.self.Whole? && j <= 4
    ensures j == 0 ==> ApplyAt(d, u, OnlyFails(j), 9) == Applying(Returned(false), d)
    ensures j in {1, 2, 3} ==> ApplyAt(d, u, OnlyFails(j), 9) == Applying(Returned(false), d.(temp := Absent))
    ensures j == 4 ==> ApplyAt(d, u, OnlyFails(j), 9) == Applying(Returned(true), Disk(Whole(u.data), d.self, Absent, None, Some(u.version)))
  {
    var ok := OnlyFails(j);
    if j == 0 {
      assert ApplyAt(d, u, ok, 1) == Applying(Returned(false), d);
      ReturnIsFinal(d, u, ok, 1, 9);
    } else {
      assert ApplyAt(d, u, ok, 1) == Applying(Write, d.(temp := Partial));
      if j == 1 {
        assert ApplyAt(d, u, ok, 2).pc == DropTemp;
        assert ApplyAt(d, u, ok, 3) == Applying(Returned(false), d.(temp := Absent));
        ReturnIsFinal(d, u, ok, 3, 9);
      } else {
        StagedThenFault(d, u, j);
      }
    }
  }

  lemma StagedThenFault(d: Disk, u: Update, j: nat)
    requires d.self.Whole? && 2 <= j <= 4
    ensures j < 4 ==> ApplyAt(d, u, OnlyFails(j), 9) == Applying(Returned(false), d.(temp := Absent))
    ensures j == 4 ==> ApplyAt(d, u, OnlyFails(j), 9) == Applying(Returned(true), Disk(Whole(u.data), d.self, Absent, None, Some(u.version)))
  {
    var ok := OnlyFails(j);
    var staged := d.(temp := Whole(u.data));
    assert ApplyAt(d, u, ok, 1) == Applying(Write, d.(temp := Partial));
    assert ApplyAt(d, u, ok, 2) == Applying(Close, staged);
    assert ApplyAt(d, u, ok, 3) == Applying(if j == 2 then DropTemp else Chmod, staged);
    assert ApplyAt(d, u, ok, 4).pc == if j == 2 then Returned(false) else if j == 3 then DropTemp else DropPrev;
    if j < 4 {
      assert ApplyAt(d, u, ok, 5) == Applying(Returned(false), d.(temp := Absent));
      ReturnIsFinal(d, u, ok, 5, 9);
    } else {
      assert ApplyAt(d, u, ok, 5) == Applying(BackUp, staged);
      assert ApplyAt(d, u, ok, 6) == Applying(Install, staged.(prev := d.self, self := Absent));
      assert ApplyAt(d, u, ok, 7).pc == WriteMarker;
      assert ApplyAt(d, u, ok, 8).pc == MoveMarker;
    }
  }

  lemma LateFault(d: Disk, u: Update, j: nat)
    requires d.self.Whole? && 5 <= j < 9
    requires ApplyAt(d, u, OnlyFails(j), 5) == Applying(BackUp, d.(temp := Whole(u.data), prev := Absent))
    ensures var s := ApplyAt(d, u, OnlyFails(j), 9);
      && (j <= 6 ==> s == Applying(Returned(false), d.(prev := Absent, temp := Absent)))
      && (j >= 7 ==> s.pc == Returned(true) && s.disk.self == Whole(u.data) && s.disk.prev == d.self
                     && s.disk.temp == Absent && s.disk.marker == d.marker)
  {
    var ok := OnlyFails(j);
    if j == 5 {
      assert ApplyAt(d, u, ok, 6).pc == DropTemp;
      assert ApplyAt(d, u, ok, 7) == Applying(Returned(false), d.(prev := Absent, temp := Absent));
      ReturnIsFinal(d, u, ok, 7, 9);
    } else {
      assert ApplyAt(d, u, ok, 6) == Applying(Install, d.(temp := Whole(u.data), prev := d.self, self := Absent));
      assert ApplyAt(d, u, ok, 7).pc == if j == 6 then Restore else WriteMarker;
      assert ApplyAt(d, u, ok, 8).pc == if j == 6 then DropTemp else if j == 7 then Returned(true) else MoveMarker;
    }
  }

  // ---------------------------------------------------------------------
  // ConfirmHealthy

  datatype ConfirmPc = ConfirmRead | ConfirmDropPrev | ConfirmDropMarker | Confirmed

  datatype Confirming = Confirming(pc: ConfirmPc, disk: Disk)

  function ConfirmStep(s: Confirming, ok: bool): Confirming {
    var d := s.disk;
    match s.pc
    case ConfirmRead => Confirming(if ok && d.marker.Some? then ConfirmDropPrev else ConfirmDropMarker, d)
    case ConfirmDropPrev => Confirming(ConfirmDropMarker, if ok then d.(prev := Absent) else d)
    case ConfirmDropMarker => Confirming(Confirmed, if ok then d.(marker := None) else d)
    case Confirmed => s
  }

  function ConfirmAt(d: Disk, ok: nat -> bool, n: nat): Confirming {
    if n == 0 then Confirming(ConfirmRead, d) else ConfirmStep(ConfirmAt(d, ok, n - 1), ok(n - 1))
  }

  lemma {:induction false} ConfirmTouchesOnlyPrev(d: Disk, ok: nat -> bool, n: nat)
    ensures var s := ConfirmAt(d, ok, n);
      && s.disk.self == d.self && s.disk.prev in {d.prev, Absent} && s.disk.marker in {d.marker, None}
      && (d.marker.None? ==> s.disk.prev == d.prev && s.pc != ConfirmDropPrev)
  {
    if n > 0 {
      ConfirmTouchesOnlyPrev(d, ok, n - 1);
    }
  }

  /** When nothing fails, a confirmation drops `.prev` and the marker if one is pending, and else nothing. */
  lemma UndisturbedConfirm(d: Disk, ok: nat -> bool, n: nat)
    requires n >= 3 && forall k :: ok(k)
    ensures ConfirmAt(d, ok, n) == Confirming(Confirmed, if d.marker.Some? then d.(prev := Absent, marker := None) else d)
  {
    if n == 3 {
      assert ConfirmAt(d, ok, 1) == Confirming(if d.marker.Some? then ConfirmDropPrev else ConfirmDropMarker, d);
      assert ConfirmAt(d, ok, 2).disk == if d.marker.Some? then d.(prev := Absent) else d;
    } else {
      UndisturbedConfirm(d, ok, n - 1);
    }
  }

  ghost predicate ConfirmIsSafe(d: Disk) {
    forall ok: nat -> bool, n :: Runnable(ConfirmAt(d, ok, n).disk)
  }

  /**
   Confirming is safe exactly when the executable is complete at its own path or no marker is
   pending: with a marker left over from an earlier update and the executable only at `.prev`,
   it deletes the last one.
   */
  lemma ConfirmIsSafeIff(d: Disk)
    requires Runnable(d)
    ensures ConfirmIsSafe(d) <==> d.self.Whole? || d.marker.None?
  {
    if d.self.Whole? || d.marker.None? {
      forall ok: nat -> bool, n
        ensures Runnable(ConfirmAt(d, ok, n).disk)
      {
        ConfirmTouchesOnlyPrev(d, ok, n);
      }
    } else {
      var ok := (k: nat) => true;
      assert ConfirmAt(d, ok, 1) == Confirming(ConfirmDropPrev, d);
      assert !Runnable(ConfirmAt(d, ok, 2).disk);
    }
  }

  // ---------------------------------------------------------------------
  // Rollback

  datatype RollbackPc = RollbackRead | StatPrev | MoveBack | ClearMarker | RolledBack(ok: bool)

  datatype RollingBack = RollingBack(pc: RollbackPc, disk: Disk)

  function RollbackStep(s: RollingBack, ok: bool): RollingBack {
    var d := s.disk;
    match s.pc
    case RollbackRead => RollingBack(if ok && d.marker.Some? then StatPrev else RolledBack(false), d)
    case StatPrev => RollingBack(if ok && !d.prev.Absent? then MoveBack else RolledBack(false), d)
    case MoveBack =>
      if ok && !d.prev.Absent? then RollingBack(ClearMarker, d.(self := d.prev, prev := Absent))
      else RollingBack(RolledBack(false), d)
    case ClearMarker => RollingBack(RolledBack(true), if ok then d.(marker := None) else d)
    case RolledBack(_) => s
  }

  function RollbackAt(d: Disk, ok: nat -> bool, n: nat): RollingBack {
    if n == 0 then RollingBack(RollbackRead, d) else RollbackStep(RollbackAt(d, ok, n - 1), ok(n - 1))
  }

  lemma {:induction false} RollbackMovesPrevBack(d: Disk, ok: nat -> bool, n: nat)
    ensures var s := RollbackAt(d, ok, n);
      var moved := !d.prev.Absent? && s.disk.self == d.prev && s.disk.prev == Absent;
      var kept := s.disk.self == d.self && s.disk.prev == d.prev && s.disk.marker == d.marker;
      && s.disk.temp == d.temp && s.disk.markerTmp == d.markerTmp && s.disk.marker in {d.marker, None}
      && (match s.pc
          case ClearMarker => moved && s.disk.marker == d.marker && d.marker.Some?
          case RolledBack(true) => moved && d.marker.Some?
          case MoveBack => kept && d.marker.Some?
          case StatPrev => kept && d.marker.Some?
          case _ => kept)
  {
    if n > 0 {
      RollbackMovesPrevBack(d, ok, n - 1);
    }
  }

  /** What Rollback answers: success exactly with a marker pending, `.prev` there and its first three operations good; a failure changes nothing. */
  lemma RollbackReturns(d: Disk, ok: nat -> bool)
    ensures var s := RollbackAt(d, ok, 4);
      && s.pc == RolledBack(d.marker.Some? && !d.prev.Absent? && ok(0) && ok(1) && ok(2))
      && (s.pc == RolledBack(false) ==> s.disk == d)
      && (s.pc == RolledBack(true) ==> s.disk == d.(self := d.prev, prev := Absent, marker := if ok(3) then None else d.marker))
  {
    assert RollbackAt(d, ok, 1) == RollingBack(if ok(0) && d.marker.Some? then StatPrev else RolledBack(false), d);
    assert RollbackAt(d, ok, 2) == RollingBack(
      if !(ok(0) && d.marker.Some?) then RolledBack(false) else if ok(1) && !d.prev.Absent? then MoveBack else RolledBack(false), d);
    assert RollbackAt(d, ok, 3).pc.ClearMarker? || RollbackAt(d, ok, 3) == RollingBack(RolledBack(false), d);
  }

  ghost predicate RollbackIsSafe(d: Disk) {
    forall ok: nat -> bool, n :: Runnable(RollbackAt(d, ok, n).disk)
  }

  /** Rolling back is safe exactly when no marker is pending or `.prev` is not a torn file. */
  lemma RollbackIsSafeIff(d: Disk)
    requires Runnable(d)
    ensures RollbackIsSafe(d) <==> d.marker.None? || !d.prev.Partial?
  {
    if d.marker.None? || !d.prev.Partial? {
      forall ok: nat -> bool, n
        ensures Runnable(RollbackAt(d, ok, n).disk)
      {
        RollbackMovesPrevBack(d, ok, n);
      }
    } else {
      var ok := (k: nat) => true;
      assert RollbackAt(d, ok, 1) == RollingBack(StatPrev, d);
      assert RollbackAt(d, ok, 2) == RollingBack(MoveBack, d);
      assert !Runnable(RollbackAt(d, ok, 3).disk);
    }
  }

  /**
   The round trip: after an Apply that returned nil and wrote its marker, an undisturbed Rollback
   puts back exactly the executable that was running before and clears the marker.
   */
  lemma RollbackUndoesApply(d: Disk, u: Update, ok: nat -> bool, n: nat)
    requires d.self.Whole?
    requires ApplyAt(d, u, ok, n).pc == Returned(true) && ApplyAt(d, u, ok, n).disk.marker.Some?
    ensures var after := ApplyAt(d, u, ok, n).disk;
      RollbackAt(after, (k: nat) => true, 4)
        == RollingBack(RolledBack(true), after.(self := d.self, prev := Absent, marker := None))
  {
    ApplyKeepsInv(d, u, ok, n);
    var after := ApplyAt(d, u, ok, n).disk;
    var fine := (k: nat) => true;
    assert RollbackAt(after, fine, 1) == RollingBack(StatPrev, after);
    assert RollbackAt(after, fine, 2) == RollingBack(MoveBack, after);
    assert RollbackAt(after, fine, 3).pc == ClearMarker;
    assert RollbackAt(after, fine, 4) == RollingBack(RolledBack(true), after.(self := d.self, prev := Absent, marker := None));
  }

  // ---------------------------------------------------------------------
  // Whole lives of an installation

  /** One operation, cut off by its end or by a crash after `n` file operations. */
  datatype Op =
    | ApplyOp(u: Update, ok: nat -> bool, n: nat)
    | ConfirmOp(ok: nat -> bool, n: nat)
    | RollbackOp(ok: nat -> bool, n: nat)

  function AfterOp(d: Disk, op: Op): Disk {
    match op
    case ApplyOp(u, ok, n) => ApplyAt(d, u, ok, n).disk
    case ConfirmOp(ok, n) => ConfirmAt(d, ok, n).disk
    case RollbackOp(ok, n) => RollbackAt(d, ok, n).disk
  }

  function After(d: Disk, ops: seq<Op>): Disk {
    if ops == [] then d else AfterOp(After(d, ops[..|ops| - 1]), ops[|ops| - 1])
  }

  /** Apply starts on a complete executable, Confirm on one or without a marker. */
  predicate WellStarted(d: Disk, op: Op) {
    match op
    case ApplyOp(_, _, _) => d.self.Whole?
    case ConfirmOp(_, _) => d.self.Whole? || d.marker.None?
    case RollbackOp(_, _) => true
  }

  /** What is asked of an operation's start is exactly what makes the operation safe there. */
  lemma WellStartedIffSafe(d: Disk, u: Update, ok: nat -> bool, n: nat)
    requires Runnable(d)
    ensures WellStarted(d, ApplyOp(u, ok, n)) <==> ApplyIsSafe(d, u)
    ensures WellStarted(d, ConfirmOp(ok, n)) <==> ConfirmIsSafe(d)
    ensures WellStarted(d, RollbackOp(ok, n)) && (!d.prev.Partial? ==> RollbackIsSafe(d))
  {
    ApplyIsSafeIff(d, u);
    ConfirmIsSafeIff(d);
    RollbackIsSafeIff(d);
  }

  ghost predicate WellStartedRun(d: Disk, ops: seq<Op>) {
    ops == [] || (WellStartedRun(d, ops[..|ops| - 1]) && WellStarted(After(d, ops[..|ops| - 1]), ops[|ops| - 1]))
  }

  /** A complete executable, and none but of the given bytes. */
  predicate Holds(d: Disk, allowed: set<Binary>) {
    && Runnable(d) && !d.self.Partial? && !d.prev.Partial?
    && (d.self.Whole? ==> d.self.bytes in allowed)
    && (d.prev.Whole? ==> d.prev.bytes in allowed)
  }

  lemma OpHolds(d: Disk, op: Op, allowed: set<Binary>)
    requires Holds(d, allowed) && WellStarted(d, op) && (op.ApplyOp? ==> op.u.data in allowed)
    ensures Holds(AfterOp(d, op), allowed)
  {
    match op {
      case ApplyOp(u, ok, n) => ApplyKeepsABinary(d, u, ok, n);
      case ConfirmOp(ok, n) => ConfirmTouchesOnlyPrev(d, ok, n);
      case RollbackOp(ok, n) => RollbackMovesPrevBack(d, ok, n);
    }
  }

  /**
   Over every life of an installation, with one operation at a time, any file operation failing
   and a crash anywhere: after every prefix of every operation a complete executable exists at
   the path or at `.prev`, and no bytes get there but those of the start and of the updates.
   */
  lemma {:induction false} InstallationSurvives(d: Disk, ops: seq<Op>, allowed: set<Binary>)
    requires Holds(d, allowed) && WellStartedRun(d, ops)
    requires forall k :: 0 <= k < |ops| && ops[k].ApplyOp? ==> ops[k].u.data in allowed
    ensures Holds(After(d, ops), allowed)
  {
    if ops != [] {
      var before := ops[..|ops| - 1];
      assert forall k :: 0 <= k < |before| ==> before[k] == ops[k];
      InstallationSurvives(d, before, allowed);
      OpHolds(After(d, before), ops[|ops| - 1], allowed);
    }
  }

  /**
   The condition on Confirm is needed even if every Apply starts on a complete executable: a
   marker that could not be removed, then an update that can neither be installed nor undone,
   then the next health confirmation.
   */
  lemma LeftoverMarkerLosesTheBinary(d: Disk, u: Update)
    requires d.self.Whole? && d.marker.Some?
    ensures var stuck := (k: nat) => k != 6 && k != 7;
      var failed := After(d, [ApplyOp(u, stuck, 9)]);
      && failed.self == Absent && failed.prev == d.self && failed.marker == d.marker
      && !Runnable(After(d, [ApplyOp(u, stuck, 9), ConfirmOp((k: nat) => true, 3)]))
  {
    var stuck := (k: nat) => k != 6 && k != 7;
    var fine := (k: nat) => true;
    var failed := ApplyAt(d, u, stuck, 9).disk;
    PutAside(d, u, stuck);
    assert ApplyAt(d, u, stuck, 7).pc == Restore;
    assert ApplyAt(d, u, stuck, 8) == Applying(DropTemp, d.(temp := Whole(u.data), prev := d.self, self := Absent));
    var ops := [ApplyOp(u, stuck, 9), ConfirmOp(fine, 3)];
    assert ops[..1] == [ApplyOp(u, stuck, 9)];
    assert [ApplyOp(u, stuck, 9)][..0] == [];
    assert After(d, ops[..1]) == AfterOp(d, ops[0]);
    assert ConfirmAt(failed, fine, 1) == Confirming(ConfirmDropPrev, failed);
    assert ConfirmAt(failed, fine, 2) == Confirming(ConfirmDropMarker, failed.(prev := Absent));
  }
}
