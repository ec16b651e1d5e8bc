/**
 The update code as it runs: Verify (agent/internal/update/update.go:73-91), Apply, ConfirmHealthy
 and Rollback as straight-line file operations (update.go:144-243), and the handler of an update
 offer (agent/internal/conn/conn.go:503-564).

 `Files` is the file system seen by the updater; its ghost log keeps every state the disk goes
 through, that is, every state a crash could leave behind.
 */
module Updater {
  import opened Wrappers
  import opened SelfUpdate

  // ---------------------------------------------------------------------
  // Trust

  /** SHA-256, base64 and Ed25519 as the libraries compute them. */
  datatype Crypto<!Key, !Sig> = Crypto(
    sha256: Binary -> string,
    equalFold: (string, string) -> bool,
    decode: string -> Option<Sig>,
    verifies: (Key, Binary, Sig) -> bool)

  /** The bytes hash to the announced sum and carry a signature of one of the trusted keys. */
  ghost predicate Verified<Key(!new), Sig>(c: Crypto<Key, Sig>, data: Binary, sha: string, sig: string, keys: seq<Key>) {
    && c.equalFold(c.sha256(data), sha)
    && c.decode(sig).Some?
    && exists k :: k in keys && c.verifies(k, data, c.decode(sig).value)
  }

  method Verify<Key(!new), Sig>(c: Crypto<Key, Sig>, data: Binary, sha: string, sig: string, keys: seq<Key>) returns (ok: bool)
    ensures ok <==> Verified(c, data, sha, sig, keys)
    ensures ok ==> keys != []
  {
    if |keys| == 0 {
      return false;
    }
    if !c.equalFold(c.sha256(data), sha) {
      return false;
    }
    var s := c.decode(sig);
    if s.None? {
      return false;
    }
    for i := 0 to |keys|
      invariant forall k :: 0 <= k < i ==> !c.verifies(keys[k], data, s.value)
    {
      if c.verifies(keys[i], data, s.value) {
        return true;
      }
    }
    return false;
  }

  // ---------------------------------------------------------------------
  // Files

  datatype Path = SelfPath | PrevPath | TempPath

  function At(d: Disk, p: Path): File {
    match p
    case SelfPath => d.self
    case PrevPath => d.prev
    case TempPath => d.temp
  }

  function Put(d: Disk, p: Path, f: File): Disk {
    match p
    case SelfPath => d.(self := f)
    case PrevPath => d.(prev := f)
    case TempPath => d.(temp := f)
  }

  /** The log extends `before` by the disks of Apply's first `n` steps. */
  ghost predicate Logged(before: seq<Disk>, log: seq<Disk>, d: Disk, u: Update, ok: nat -> bool, n: nat) {
    && |log| == |before| + n && log[..|before|] == before
    && forall k :: |before| <= k < |log| ==> log[k] == ApplyAt(d, u, ok, k - |before| + 1).disk
  }

  /** The same for a confirmation, and for a rollback. */
  ghost predicate LoggedConfirm(before: seq<Disk>, log: seq<Disk>, d: Disk, ok: nat -> bool, n: nat) {
    && |log| == |before| + n && log[..|before|] == before
    && forall k :: |before| <= k < |log| ==> log[k] == ConfirmAt(d, ok, k - |before| + 1).disk
  }

  ghost predicate LoggedRollback(before: seq<Disk>, log: seq<Disk>, d: Disk, ok: nat -> bool, n: nat) {
    && |log| == |before| + n && log[..|before|] == before
    && forall k :: |before| <= k < |log| ==> log[k] == RollbackAt(d, ok, k - |before| + 1).disk
  }

  class Files {
    var disk: Disk
    ghost var log: seq<Disk>

    method Rename(from: Path, to: Path, ok: bool) returns (done: bool)
      requires from != to
      modifies this
      ensures done == (ok && !At(old(disk), from).Absent?)
      ensures disk == if done then Put(Put(old(disk), to, At(old(disk), from)), from, Absent) else old(disk)
      ensures log == old(log) + [disk]
    {
      done := ok && !At(disk, from).Absent?;
      if done {
        disk := Put(Put(disk, to, At(disk, from)), from, Absent);
      }
      log := log + [disk];
    }

    /** Creates, writes or removes a file; on failure nothing changes. */
    method Set(p: Path, f: File, ok: bool)
      modifies this
      ensures disk == if ok then Put(old(disk), p, f) else old(disk)
      ensures log == old(log) + [disk]
    {
      if ok {
        disk := Put(disk, p, f);
      }
      log := log + [disk];
    }

    /** A close, chmod, read or stat: no content changes. */
    method Touch()
      modifies this
      ensures disk == old(disk) && log == old(log) + [disk]
    {
      log := log + [disk];
    }

    method SetMarkers(tmp: Option<string>, marker: Option<string>, ok: bool)
      modifies this
      ensures disk == if ok then old(disk).(markerTmp := tmp, marker := marker) else old(disk)
      ensures log == old(log) + [disk]
    {
      if ok {
        disk := disk.(markerTmp := tmp, marker := marker);
      }
      log := log + [disk];
    }

    /**
     Apply.  It goes through the steps of `SelfUpdate.ApplyAt` one file operation at a time, so
     the log holds exactly the states proved safe there.
     */
    method Apply(u: Update, ok: nat -> bool) returns (r: bool, ghost n: nat)
      modifies this
      ensures ApplyAt(old(disk), u, ok, n) == Applying(Returned(r), disk)
      ensures Logged(old(log), log, old(disk), u, ok, n)
    {
      ghost var d := disk;
      ghost var before := log;
      Set(TempPath, Partial, ok(0));
      assert ApplyAt(d, u, ok, 1) == Applying(if ok(0) then Write else Returned(false), disk);
      if !ok(0) {
        return false, 1;
      }
      Set(TempPath, Whole(u.data), ok(1));
      assert ApplyAt(d, u, ok, 2) == Applying(if ok(1) then Close else DropTemp, disk);
      if !ok(1) {
        n := GiveUp(d, before, u, ok, 2);
        return false, n;
      }
      Touch();
      assert ApplyAt(d, u, ok, 3) == Applying(if ok(2) then Chmod else DropTemp, disk);
      if !ok(2) {
        n := GiveUp(d, before, u, ok, 3);
        return false, n;
      }
      Touch();
      assert ApplyAt(d, u, ok, 4) == Applying(if ok(3) then DropPrev else DropTemp, disk);
      if !ok(3) {
        n := GiveUp(d, before, u, ok, 4);
        return false, n;
      }
      r, n := Swap(d, before, u, ok);
    }

    /** From here on the files in use change: `.prev` goes, the executable is put aside and replaced. */
    method Swap(ghost d: Disk, ghost before: seq<Disk>, u: Update, ok: nat -> bool) returns (r: bool, ghost n: nat)
      requires ApplyAt(d, u, ok, 4) == Applying(DropPrev, disk) && Logged(before, log, d, u, ok, 4)
      modifies this
      ensures ApplyAt(d, u, ok, n) == Applying(Returned(r), disk) && Logged(before, log, d, u, ok, n)
    {
      Set(PrevPath, Absent, ok(4));
      assert ApplyAt(d, u, ok, 5) == Applying(BackUp, disk);
      var aside := Rename(SelfPath, PrevPath, ok(5));
      assert ApplyAt(d, u, ok, 6) == Applying(if aside then Install else DropTemp, disk);
      if !aside {
        n := GiveUp(d, before, u, ok, 6);
        return false, n;
      }
      r, n := PutInPlace(d, before, u, ok);
    }

    /** The final move; if it fails the old executable is put back. */
    method PutInPlace(ghost d: Disk, ghost before: seq<Disk>, u: Update, ok: nat -> bool) returns (r: bool, ghost n: nat)
      requires ApplyAt(d, u, ok, 6) == Applying(Install, disk) && Logged(before, log, d, u, ok, 6)
      modifies this
      ensures ApplyAt(d, u, ok, n) == Applying(Returned(r), disk) && Logged(before, log, d, u, ok, n)
    {
      r := Rename(TempPath, SelfPath, ok(6));
      assert ApplyAt(d, u, ok, 7) == Applying(if r then WriteMarker else Restore, disk);
      if r {
        n := Mark(d, before, u, ok);
      } else {
        var _ := Rename(PrevPath, SelfPath, ok(7));
        assert ApplyAt(d, u, ok, 8) == Applying(DropTemp, disk);
        n := GiveUp(d, before, u, ok, 8);
      }
    }

    /** writeMarker; a missing marker only disables the automatic rollback. */
    method Mark(ghost d: Disk, ghost before: seq<Disk>, u: Update, ok: nat -> bool) returns (ghost n: nat)
      requires ApplyAt(d, u, ok, 7) == Applying(WriteMarker, disk) && Logged(before, log, d, u, ok, 7)
      modifies this
      ensures ApplyAt(d, u, ok, n) == Applying(Returned(true), disk) && Logged(before, log, d, u, ok, n)
    {
      SetMarkers(Some(u.version), disk.marker, ok(7));
      assert ApplyAt(d, u, ok, 8) == Applying(if ok(7) then MoveMarker else Returned(true), disk);
      if !ok(7) {
        return 8;
      }
      SetMarkers(None, disk.markerTmp, ok(8));
      assert ApplyAt(d, u, ok, 9) == Applying(Returned(true), disk);
      n := 9;
    }

    /** Removes the staged file before Apply reports its error. */
    method GiveUp(ghost d: Disk, ghost before: seq<Disk>, u: Update, ok: nat -> bool, at: nat) returns (ghost n: nat)
      requires ApplyAt(d, u, ok, at) == Applying(DropTemp, disk) && Logged(before, log, d, u, ok, at)
      modifies this
      ensures ApplyAt(d, u, ok, n) == Applying(Returned(false), disk) && Logged(before, log, d, u, ok, n)
    {
      Set(TempPath, Absent, ok(at));
      assert ApplyAt(d, u, ok, at + 1) == Applying(Returned(false), disk);
      n := at + 1;
    }

    /** ConfirmHealthy, one step of `SelfUpdate.ConfirmAt` at a time. */
    method ConfirmHealthy(ok: nat -> bool) returns (ghost n: nat)
      modifies this
      ensures ConfirmAt(old(disk), ok, n) == Confirming(Confirmed, disk)
      ensures LoggedConfirm(old(log), log, old(disk), ok, n)
    {
      ghost var d := disk;
      Touch();
      n := 1;
      var pending := ok(0) && disk.marker.Some?;
      assert ConfirmAt(d, ok, 1) == Confirming(if pending then ConfirmDropPrev else ConfirmDropMarker, disk);
      if pending {
        Set(PrevPath, Absent, ok(1));
        n := 2;
        assert ConfirmAt(d, ok, 2) == Confirming(ConfirmDropMarker, disk);
        SetMarkers(disk.markerTmp, None, ok(2));
      } else {
        SetMarkers(disk.markerTmp, None, ok(1));
      }
      n := n + 1;
      assert ConfirmAt(d, ok, n) == Confirming(Confirmed, disk);
    }

    /** Rollback, one step of `SelfUpdate.RollbackAt` at a time. */
    method Rollback(ok: nat -> bool) returns (r: bool, ghost n: nat)
      modifies this
      ensures RollbackAt(old(disk), ok, n) == RollingBack(RolledBack(r), disk)
      ensures LoggedRollback(old(log), log, old(disk), ok, n)
    {
      ghost var d := disk;
      Touch();
      var pending := ok(0) && disk.marker.Some?;
      assert RollbackAt(d, ok, 1) == RollingBack(if pending then StatPrev else RolledBack(false), disk);
      if !pending {
        return false, 1;
      }
      Touch();
      var there := ok(1) && !disk.prev.Absent?;
      assert RollbackAt(d, ok, 2) == RollingBack(if there then MoveBack else RolledBack(false), disk);
      if !there {
        return false, 2;
      }
      var moved := Rename(PrevPath, SelfPath, ok(2));
      assert RollbackAt(d, ok, 3) == RollingBack(if moved then ClearMarker else RolledBack(false), disk);
      if !moved {
        return false, 3;
      }
      SetMarkers(disk.markerTmp, None, ok(3));
      assert RollbackAt(d, ok, 4) == RollingBack(RolledBack(true), disk);
      r, n := true, 4;
    }
  }

  // ---------------------------------------------------------------------
  // Offers

  datatype Offer = Offer(version: string, url: string, sha256: string, signature: string)

  datatype Phase = Downloading | VerifiedPhase | Applied | FailedPhase

  /** What happens to an installation: a handled offer, a confirmation or a rollback, cut off after `n` steps. */
  datatype Act<Key> =
    | Offered(offer: Offer, keys: seq<Key>, data: Binary, ok: nat -> bool, n: nat)
    | Confirms(ok: nat -> bool, n: nat)
    | RollsBack(ok: nat -> bool, n: nat)

  function OpOf<Key>(a: Act<Key>): Op {
    match a
    case Offered(offer, _, data, ok, n) => ApplyOp(Update(data, offer.version), ok, n)
    case Confirms(ok, n) => ConfirmOp(ok, n)
    case RollsBack(ok, n) => RollbackOp(ok, n)
  }

  function OpsOf<Key>(acts: seq<Act<Key>>): seq<Op> {
    seq(|acts|, k requires 0 <= k < |acts| => OpOf(acts[k]))
  }

  /** What HandleUpdateOffer has established before it applies anything. */
  ghost predicate Accepted<Key(!new), Sig>(c: Crypto<Key, Sig>, a: Act<Key>) {
    a.Offered? && a.keys != [] && Verified(c, a.data, a.offer.sha256, a.offer.signature, a.keys)
  }

  /**
   handleUpdateOffer.  `keys` is what TrustedKeys parsed, `downloaded` what the server or
   whoever answered the URL sent.  The files change only if the bytes verified under a key of
   a non-empty trusted set; every state in between holds a complete executable if the agent
   started from one.
   */
  method HandleUpdateOffer<Key(!new), Sig>(
    files: Files, offer: Option<Offer>, current: string, keys: Option<seq<Key>>,
    downloaded: Option<Binary>, c: Crypto<Key, Sig>, ok: nat -> bool)
    returns (phases: seq<Phase>, restart: bool)
    modifies files
    ensures files.log != old(files.log) || files.disk != old(files.disk) || restart ==>
      && offer.Some? && offer.value.version !in {"", current}
      && keys.Some? && keys.value != [] && downloaded.Some?
      && Verified(c, downloaded.value, offer.value.sha256, offer.value.signature, keys.value)
    ensures files.disk != old(files.disk) ==>
      exists n :: var act := Offered(offer.value, keys.value, downloaded.value, ok, n);
        Accepted(c, act) && files.disk == AfterOp(old(files.disk), OpOf(act))
    ensures restart ==> files.disk.self == Whole(downloaded.value) || !old(files.disk).self.Whole?
    ensures restart <==> Applied in phases
    ensures && offer.Some? && offer.value.version !in {"", current} && keys.Some? && downloaded.Some?
            && Verified(c, downloaded.value, offer.value.sha256, offer.value.signature, keys.value)
            && old(files.disk).self.Whole? && (forall k :: ok(k))
            ==> restart && files.disk == Disk(Whole(downloaded.value), old(files.disk).self, Absent, None, Some(offer.value.version))
    ensures old(files.disk).self.Whole? ==>
      |old(files.log)| <= |files.log| && forall k :: |old(files.log)| <= k < |files.log| ==> Runnable(files.log[k])
  {
    phases, restart := [], false;
    if offer.None? || offer.value.version == "" || offer.value.version == current {
      return;
    }
    var o := offer.value;
    if keys.None? || |keys.value| == 0 {
      return [FailedPhase], false;
    }
    phases := [Downloading];
    if downloaded.None? {
      return [Downloading, FailedPhase], false;
    }
    var trusted := Verify(c, downloaded.value, o.sha256, o.signature, keys.value);
    if !trusted {
      return [Downloading, FailedPhase], false;
    }
    var u := Update(downloaded.value, o.version);
    ghost var d, before := files.disk, files.log;
    var applied, n := files.Apply(u, ok);
    ghost var act := Offered(o, keys.value, downloaded.value, ok, n);
    assert Accepted(c, act) && files.disk == AfterOp(d, OpOf(act));
    if d.self.Whole? && forall k :: ok(k) {
      UndisturbedApply(d, u, ok, n);
    }
    if d.self.Whole? {
      ApplyKeepsInv(d, u, ok, n);
      forall k | |before| <= k < |files.log|
        ensures Runnable(files.log[k])
      {
        ApplyKeepsABinary(d, u, ok, k - |before| + 1);
      }
    }
    if !applied {
      return [Downloading, VerifiedPhase, FailedPhase], false;
    }
    return [Downloading, VerifiedPhase, Applied], true;
  }

  // ---------------------------------------------------------------------
  // Whole lives of an installation, by offers

  /** The bytes were there at the start, or came with an offer that verified. */
  ghost predicate Vouched<Key(!new), Sig>(c: Crypto<Key, Sig>, d: Disk, acts: seq<Act<Key>>, b: Binary) {
    || d.self == Whole(b) || d.prev == Whole(b)
    || exists k :: 0 <= k < |acts| && Accepted(c, acts[k]) && acts[k].data == b
  }

  function Originals(d: Disk): set<Binary> {
    (if d.self.Whole? then {d.self.bytes} else {}) + (if d.prev.Whole? then {d.prev.bytes} else {})
  }

  function OfferedBytes<Key>(acts: seq<Act<Key>>): set<Binary> {
    set k | 0 <= k < |acts| && acts[k].Offered? :: acts[k].data
  }

  /**
   Over every life of an installation, one operation at a time, with any file operation failing
   and a crash anywhere: a complete executable survives at the path or at `.prev`, and each one
   there was there at the start or passed Verify, under a non-empty set of trusted keys, in
   an offer of this life.
   */
  lemma EveryBinaryIsVouched<Key(!new), Sig>(c: Crypto<Key, Sig>, d: Disk, acts: seq<Act<Key>>, b: Binary)
    requires d.self.Whole? && !d.prev.Partial? && WellStartedRun(d, OpsOf(acts))
    requires forall k :: 0 <= k < |acts| && acts[k].Offered? ==> Accepted(c, acts[k])
    ensures var e := After(d, OpsOf(acts));
      Runnable(e) && (e.self == Whole(b) || e.prev == Whole(b) ==> Vouched(c, d, acts, b))
  {
    var ops := OpsOf(acts);
    var allowed := Originals(d) + OfferedBytes(acts);
    assert forall k :: 0 <= k < |ops| ==> ops[k] == OpOf(acts[k]);
    forall k | 0 <= k < |ops| && ops[k].ApplyOp?
      ensures ops[k].u.data in allowed
    {
      assert acts[k].data in OfferedBytes(acts);
    }
    InstallationSurvives(d, ops, allowed);
    if b in OfferedBytes(acts) {
      var k :| 0 <= k < |acts| && acts[k].Offered? && acts[k].data == b;
      assert Accepted(c, acts[k]);
    }
  }
}
