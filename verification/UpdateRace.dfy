/**
 Two update offers handled at once (agent/internal/conn/conn.go:252 starts a goroutine for each,
 over agent/internal/update/update.go:144-190).

 The two Applies share the executable, `.prev` and the marker files; each has a temporary file of
 its own.  Their steps interleave freely and any file operation may fail.
 */
module UpdateRace {
  import opened Wrappers
  import opened SelfUpdate

  /** One Apply: where it is, what it staged, and what it installs. */
  datatype Side = Side(pc: ApplyPc, temp: File, u: Update)

  datatype Who = A | B

  datatype Pair = Pair(self: File, prev: File, markerTmp: Option<string>, marker: Option<string>, a: Side, b: Side)

  /** The next file operation of one of them, and whether it succeeds. */
  datatype Event = Event(who: Who, ok: bool)

  function SideOf(s: Pair, who: Who): Side {
    if who.A? then s.a else s.b
  }

  /** The disk as one of them sees it. */
  function View(s: Pair, who: Who): Disk {
    Disk(s.self, s.prev, SideOf(s, who).temp, s.markerTmp, s.marker)
  }

  function Put(s: Pair, who: Who, r: Applying): Pair {
    var side := Side(r.pc, r.disk.temp, SideOf(s, who).u);
    Pair(r.disk.self, r.disk.prev, r.disk.markerTmp, r.disk.marker,
         if who.A? then side else s.a, if who.B? then side else s.b)
  }

  function Step(s: Pair, e: Event): Pair {
    Put(s, e.who, ApplyStep(Applying(SideOf(s, e.who).pc, View(s, e.who)), SideOf(s, e.who).u, e.ok))
  }

  function After(s: Pair, es: seq<Event>): Pair {
    if es == [] then s else Step(After(s, es[..|es| - 1]), es[|es| - 1])
  }

  predicate HasBinary(s: Pair) {
    s.self.Whole? || s.prev.Whole?
  }

  /** Two offers have just been accepted on a disk with a complete executable. */
  predicate Begins(s: Pair) {
    && s.self.Whole? && !s.prev.Partial?
    && s.a.pc.Stage? && s.b.pc.Stage?
  }

  predicate Staged(side: Side) {
    side.pc in {Close, Chmod, DropPrev, BackUp, Install} ==> side.temp == Whole(side.u.data)
  }

  ghost predicate Sound(s: Pair) {
    HasBinary(s) && !s.self.Partial? && !s.prev.Partial? && Staged(s.a) && Staged(s.b)
  }

  /** The step deletes `.prev` while the executable is not at its path. */
  predicate DropsLast(s: Pair, e: Event) {
    SideOf(s, e.who).pc.DropPrev? && e.ok && !s.self.Whole?
  }

  lemma StepStaysSound(s: Pair, e: Event)
    requires Sound(s)
    ensures HasBinary(Step(s, e)) <==> !DropsLast(s, e)
    ensures !DropsLast(s, e) ==> Sound(Step(s, e))
  {
    match SideOf(s, e.who).pc {
      case Stage =>
      case Write =>
      case Close =>
      case Chmod =>
      case DropPrev =>
      case BackUp =>
      case Install =>
      case Restore =>
      case DropTemp =>
      case WriteMarker =>
      case MoveMarker =>
      case Returned(_) =>
    }
  }

  /** No step of the run drops the last executable. */
  ghost predicate NeverDropsLast(s: Pair, es: seq<Event>) {
    forall n :: 0 <= n < |es| ==> !DropsLast(After(s, es[..n]), es[n])
  }

  lemma {:induction false} StaysSound(s: Pair, es: seq<Event>, n: nat)
    requires Begins(s) && n <= |es| && forall k :: 0 <= k < n ==> !DropsLast(After(s, es[..k]), es[k])
    ensures Sound(After(s, es[..n]))
  {
    if n > 0 {
      StaysSound(s, es, n - 1);
      assert es[..n][..n - 1] == es[..n - 1];
      StepStaysSound(After(s, es[..n - 1]), es[n - 1]);
    }
  }

  /**
   Over every interleaving: a complete executable exists at the path or at `.prev` after every
   step, if and only if no `.prev` is deleted while the executable is away from its path.
   */
  lemma PairSurvivesIff(s: Pair, es: seq<Event>)
    requires Begins(s)
    ensures (forall n :: 0 <= n <= |es| ==> HasBinary(After(s, es[..n]))) <==> NeverDropsLast(s, es)
  {
    if NeverDropsLast(s, es) {
      forall n | 0 <= n <= |es|
        ensures HasBinary(After(s, es[..n]))
      {
        StaysSound(s, es, n);
      }
    } else {
      var n :| 0 <= n < |es| && DropsLast(After(s, es[..n]), es[n]);
      var m := FirstDropLoses(s, es, n);
    }
  }

  lemma {:induction false} FirstDropLoses(s: Pair, es: seq<Event>, n: nat) returns (m: nat)
    requires Begins(s) && n < |es| && DropsLast(After(s, es[..n]), es[n])
    ensures m <= |es| && !HasBinary(After(s, es[..m]))
    decreases n
  {
    if k :| 0 <= k < n && DropsLast(After(s, es[..k]), es[k]) {
      m := FirstDropLoses(s, es, k);
    } else {
      m := n + 1;
      StaysSound(s, es, n);
      assert es[..m][..n] == es[..n];
      StepStaysSound(After(s, es[..n]), es[n]);
    }
  }

  // ---------------------------------------------------------------------
  // When that is guaranteed, and when it is not

  /** The executable may be away from its path: this Apply has put it aside. */
  predicate Swapping(side: Side) {
    side.pc.Install? || side.pc.Restore?
  }

  function Other(who: Who): Who {
    if who.A? then B else A
  }

  /** Neither deletes `.prev` while the other is swapping, and a failed install can be undone. */
  predicate Patient(s: Pair, e: Event) {
    && (SideOf(s, e.who).pc.DropPrev? ==> !Swapping(SideOf(s, Other(e.who))))
    && (SideOf(s, e.who).pc.Restore? ==> e.ok)
  }

  /** Whenever the executable is away, one of the two is about to bring one back. */
  ghost predicate Held(s: Pair) {
    Sound(s) && (s.self.Whole? || Swapping(s.a) || Swapping(s.b))
  }

  lemma StepStaysHeld(s: Pair, e: Event)
    requires Held(s) && Patient(s, e)
    ensures Held(Step(s, e))
  {
    StepStaysSound(s, e);
  }

  ghost predicate PatientRun(s: Pair, es: seq<Event>) {
    es == [] || (PatientRun(s, es[..|es| - 1]) && Patient(After(s, es[..|es| - 1]), es[|es| - 1]))
  }

  /** Swaps that do not overlap, with restores that succeed, always keep an executable. */
  lemma {:induction false} PatientPairSurvives(s: Pair, es: seq<Event>)
    requires Begins(s) && PatientRun(s, es)
    ensures Held(After(s, es))
  {
    if es != [] {
      PatientPairSurvives(s, es[..|es| - 1]);
      StepStaysHeld(After(s, es[..|es| - 1]), es[|es| - 1]);
    }
  }

  function Repeat(who: Who, n: nat): seq<Event> {
    seq(n, _ => Event(who, true))
  }

  lemma {:induction false} RunsAlone(s: Pair, who: Who, n: nat)
    requires SideOf(s, who).pc.Stage?
    ensures After(s, Repeat(who, n)) == Put(s, who, ApplyAt(View(s, who), SideOf(s, who).u, (k: nat) => true, n))
  {
    if n > 0 {
      RunsAlone(s, who, n - 1);
      assert Repeat(who, n)[..n - 1] == Repeat(who, n - 1);
    }
  }

  lemma {:induction false} AfterConcat(s: Pair, es: seq<Event>, fs: seq<Event>)
    ensures After(s, es + fs) == After(After(s, es), fs)
  {
    if fs == [] {
      assert es + fs == es;
    } else {
      assert (es + fs)[..|es + fs| - 1] == es + fs[..|fs| - 1];
      AfterConcat(s, es, fs[..|fs| - 1]);
    }
  }

  /**
   Overlapping swaps lose it without any operation failing: the first has put the executable
   aside, and the second deletes it as an old `.prev`.
   */
  lemma OverlappingSwapsLoseTheBinary(s: Pair)
    requires Begins(s)
    ensures !HasBinary(After(s, Repeat(A, 6) + Repeat(B, 5)))
  {
    var ok := (k: nat) => true;
    RunsAlone(s, A, 6);
    PutAside(View(s, A), s.a.u, ok);
    var t := After(s, Repeat(A, 6));
    RunsAlone(t, B, 5);
    PrevIsDropped(View(t, B), t.b.u, ok);
    AfterConcat(s, Repeat(A, 6), Repeat(B, 5));
  }
}
