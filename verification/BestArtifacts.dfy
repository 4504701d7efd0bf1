/** The best-artifact export (libreevolve/core/best_artifacts.py, `_write_best_artifacts`):
    two artifacts are swapped in together, with backups, a rollback and a cleanup, on a disk
    whose operations may fail or be interrupted. */
module BestArtifacts {
  import opened Text
  import opened FaultyDisk

  datatype Path = BestPy | BestWorkspace | TmpPy | TmpWorkspace | BackupPy | BackupWorkspace

  type Content = string

  datatype RollbackError = RemoveInstalledPy | RemoveInstalledWorkspace | RestorePy | RestoreWorkspace

  /** How the export ends: with success, with a `BestArtifactExportError` that lists rollback
      errors, failed cleanups and preserved backups, or cut off by an interrupt, which is not
      an `Exception` and starts no rollback. */
  datatype Result = Exported | Failed(rollback: seq<RollbackError>, cleanup: set<Path>, preserved: set<Path>) | CutOff

  function At(files: map<Path, Content>, path: Path): Option<Content> {
    if path in files then Some(files[path]) else None
  }

  /** What the export starts from: the temporary and backup names are new. */
  predicate Unused(files: map<Path, Content>) {
    TmpPy !in files && TmpWorkspace !in files && BackupPy !in files && BackupWorkspace !in files
  }

  function Backup(own: Path): Path {
    if own.BestPy? then BackupPy else BackupWorkspace
  }

  /** The old artifact, if there was one, is at its own path or at its backup. */
  predicate Kept(files: map<Path, Content>, before: map<Path, Content>, own: Path) {
    own in before ==> At(files, own) == At(before, own) || At(files, Backup(own)) == At(before, own)
  }

  /** The artifact is as before the export and has no backup. */
  predicate Untouched(files: map<Path, Content>, before: map<Path, Content>, own: Path) {
    At(files, own) == At(before, own) && At(files, Backup(own)) == None
  }

  /** The artifact has been moved to its backup. */
  predicate BackedUp(files: map<Path, Content>, before: map<Path, Content>, own: Path) {
    At(files, own) == None && At(files, Backup(own)) == At(before, own)
  }

  predicate IsPair(files: map<Path, Content>, py: Option<Content>, workspace: Option<Content>) {
    At(files, BestPy) == py && At(files, BestWorkspace) == workspace
  }

  // ----- the swap

  function One(b: bool): nat {
    if b then 1 else 0
  }

  /** The number of disk operations of a swap: two writes and perhaps the manifest, a rename
      for each old artifact, and the two renames into place. */
  function SwapSteps(before: map<Path, Content>, writesManifest: bool): nat {
    2 + One(writesManifest) + One(BestPy in before) + One(BestWorkspace in before) + 2
  }

  /** The disk operations of a rollback, each with the error it records when it fails. */
  function RollbackOps(files: map<Path, Content>, installedPy: bool, installedWorkspace: bool): seq<RollbackError> {
    (if installedPy && BestPy in files then [RemoveInstalledPy] else [])
    + (if installedWorkspace && BestWorkspace in files then [RemoveInstalledWorkspace] else [])
    + (if BackupPy in files then [RestorePy] else [])
    + (if BackupWorkspace in files then [RestoreWorkspace] else [])
  }

  /** The same, from the number k of the operation at which the swap failed. */
  function UndoOps(before: map<Path, Content>, writesManifest: bool, k: nat): seq<RollbackError> {
    var written := 2 + One(writesManifest);
    (if k == SwapSteps(before, writesManifest) - 1 then [RemoveInstalledWorkspace] else [])
    + (if BestPy in before && k > written then [RestorePy] else [])
    + (if BestWorkspace in before && k > written + One(BestPy in before) then [RestoreWorkspace] else [])
  }

  /** What the rollback may start from: `best.py` has not been installed, and an artifact that
      has not been installed is as it was or at its backup. */
  predicate CanRollBack(
      files: map<Path, Content>, before: map<Path, Content>, installedPy: bool, installedWorkspace: bool) {
    && !installedPy
    && (Untouched(files, before, BestPy) || BackedUp(files, before, BestPy))
    && (!installedWorkspace ==> Untouched(files, before, BestWorkspace) || BackedUp(files, before, BestWorkspace))
    && (installedWorkspace ==> At(files, BackupWorkspace) == At(before, BestWorkspace))
  }

  lemma UndoOfWriting(files: map<Path, Content>, before: map<Path, Content>, writesManifest: bool, k: nat)
    requires At(files, BestPy) == At(before, BestPy) && At(files, BestWorkspace) == At(before, BestWorkspace)
    requires At(files, BackupPy) == None && At(files, BackupWorkspace) == None
    requires k < 2 + One(writesManifest)
    ensures RollbackOps(files, false, false) == UndoOps(before, writesManifest, k)
    ensures CanRollBack(files, before, false, false)
    ensures Kept(files, before, BestPy) && Kept(files, before, BestWorkspace)
  {
  }

  lemma UndoOfMoving(files: map<Path, Content>, before: map<Path, Content>, writesManifest: bool, j: nat)
    requires j < One(BestPy in before) + One(BestWorkspace in before)
    requires Untouched(files, before, BestWorkspace)
    requires if j == 0 then Untouched(files, before, BestPy) else BackedUp(files, before, BestPy)
    ensures RollbackOps(files, false, false) == UndoOps(before, writesManifest, 2 + One(writesManifest) + j)
    ensures CanRollBack(files, before, false, false)
  {
  }

  lemma UndoOfPlacing(files: map<Path, Content>, before: map<Path, Content>, writesManifest: bool, j: nat)
    requires At(files, BackupPy) == At(before, BestPy) && At(files, BackupWorkspace) == At(before, BestWorkspace)
    requires At(files, BestPy) == None
    requires j < 2 && (if j == 1 then BestWorkspace in files else At(files, BestWorkspace) == None)
    ensures var k := SwapSteps(before, writesManifest) - 2 + j;
            RollbackOps(files, false, j == 1) == UndoOps(before, writesManifest, k)
    ensures CanRollBack(files, before, false, j == 1)
  {
  }

  lemma EitherWayIsKept(files: map<Path, Content>, before: map<Path, Content>, own: Path)
    ensures Untouched(files, before, own) || At(files, Backup(own)) == At(before, own) ==> Kept(files, before, own)
  {
  }

  method MoveOldArtifacts(disk: Disk<Path, Content>) returns (status: Status)
    requires At(disk.files, BackupPy) == None && At(disk.files, BackupWorkspace) == None
    modifies disk
    ensures At(disk.files, TmpPy) == At(old(disk.files), TmpPy)
    ensures At(disk.files, TmpWorkspace) == At(old(disk.files), TmpWorkspace)
    ensures var steps := One(BestPy in old(disk.files)) + One(BestWorkspace in old(disk.files));
            && Ran(disk.fault, old(disk.calls), steps, disk.calls, status)
            && (status.OsError? ==>
                  && Untouched(disk.files, old(disk.files), BestWorkspace)
                  && if Progress(disk.fault, old(disk.calls), steps) == 0
                     then Untouched(disk.files, old(disk.files), BestPy)
                     else BackedUp(disk.files, old(disk.files), BestPy))
    ensures status.Done? ==>
      BackedUp(disk.files, old(disk.files), BestPy) && BackedUp(disk.files, old(disk.files), BestWorkspace)
    ensures Untouched(disk.files, old(disk.files), BestPy) || BackedUp(disk.files, old(disk.files), BestPy)
    ensures || Untouched(disk.files, old(disk.files), BestWorkspace)
            || BackedUp(disk.files, old(disk.files), BestWorkspace)
  {
    hide Smooth, Progress;
    ghost var c, first, second := disk.calls, One(BestPy in disk.files), One(BestWorkspace in disk.files);
    status := MoveToBackup(disk, BestPy);
    if !status.Done? {
      RanThen(disk.fault, c, first, second, disk.calls, status, disk.calls, status);
      return;
    }
    assert (BestWorkspace in disk.files) == (BestWorkspace in old(disk.files)) by {
      assert At(disk.files, BestWorkspace) == At(old(disk.files), BestWorkspace);
    }
    status := MoveToBackup(disk, BestWorkspace);
    RanThen(disk.fault, c, first, second, c + first, Done, disk.calls, status);
  }

  /** The two renames into place; the flags say what has been installed. */
  method PutInPlace(disk: Disk<Path, Content>) returns (status: Status, installedPy: bool, installedWorkspace: bool)
    requires TmpPy in disk.files && TmpWorkspace in disk.files
    modifies disk
    ensures Ran(disk.fault, old(disk.calls), 2, disk.calls, status)
    ensures At(disk.files, BackupPy) == At(old(disk.files), BackupPy)
    ensures At(disk.files, BackupWorkspace) == At(old(disk.files), BackupWorkspace)
    ensures status.Done? ==>
      && IsPair(disk.files, At(old(disk.files), TmpPy), At(old(disk.files), TmpWorkspace))
      && TmpPy !in disk.files && TmpWorkspace !in disk.files
    ensures status.OsError? ==>
      && !installedPy && At(disk.files, BestPy) == At(old(disk.files), BestPy)
      && (installedWorkspace <==> Progress(disk.fault, old(disk.calls), 2) == 1)
      && At(disk.files, BestWorkspace)
         == At(old(disk.files), if installedWorkspace then TmpWorkspace else BestWorkspace)
  {
    hide Smooth, Progress;
    RanOnce(disk.fault, disk.calls);
    RanOnce(disk.fault, disk.calls + 1);
    ghost var c := disk.calls;
    status := disk.Rename(TmpWorkspace, BestWorkspace);
    if !status.Done? {
      RanThen(disk.fault, c, 1, 1, disk.calls, status, disk.calls, status);
      return status, false, false;
    }
    status := disk.Rename(TmpPy, BestPy);
    RanThen(disk.fault, c, 1, 1, c + 1, Done, disk.calls, status);
    return status, status.Done?, true;
  }

  method WriteTemporaries(disk: Disk<Path, Content>, py: Content, workspace: Content, writesManifest: bool)
    returns (status: Status)
    requires Unused(disk.files)
    modifies disk
    ensures Ran(disk.fault, old(disk.calls), 2 + One(writesManifest), disk.calls, status)
    ensures At(disk.files, BestPy) == At(old(disk.files), BestPy)
    ensures At(disk.files, BestWorkspace) == At(old(disk.files), BestWorkspace)
    ensures At(disk.files, BackupPy) == None && At(disk.files, BackupWorkspace) == None
    ensures status.Done? ==> At(disk.files, TmpPy) == Some(py) && At(disk.files, TmpWorkspace) == Some(workspace)
  {
    RanTwoOrThree(disk.fault, disk.calls, writesManifest);
    UnusedAt(disk.files);
    hide Smooth, Progress, Ran, At;
    status := WriteOne(disk, TmpPy, py);
    if !status.Done? { return; }
    status := WriteOne(disk, TmpWorkspace, workspace);
    if !status.Done? { return; }
    if writesManifest {
      // the manifest goes into the temporary workspace; `workspace` is the tree with it
      status := WriteOne(disk, TmpWorkspace, workspace);
    }
  }

  lemma {:induction false} RanTwoOrThree(fault: nat -> Fault<Content>, c: nat, third: bool)
    ensures !fault(c).Fine? ==> Ran(fault, c, 2 + One(third), c + 1, fault(c).Outcome())
    ensures fault(c).Fine? && !fault(c + 1).Fine? ==> Ran(fault, c, 2 + One(third), c + 2, fault(c + 1).Outcome())
    ensures fault(c).Fine? && fault(c + 1).Fine? ==>
      if third then Ran(fault, c, 2 + One(third), c + 3, fault(c + 2).Outcome())
      else Ran(fault, c, 2 + One(third), c + 2, Done)
  {
    RanOnce(fault, c);
    RanOnce(fault, c + 1);
    RanOnce(fault, c + 2);
    hide Ran, Progress, Smooth;
    var first, second, last := fault(c).Outcome(), fault(c + 1).Outcome(), fault(c + 2).Outcome();
    if !first.Done? {
      RanThen(fault, c, 1, 1 + One(third), c + 1, first, c + 1, first);
    } else {
      var end, status := if second.Done? && third then c + 3 else c + 2, if second.Done? && third then last else second;
      RanThen(fault, c + 1, 1, One(third), c + 2, second, end, status);
      RanThen(fault, c, 1, 1 + One(third), c + 1, first, end, status);
    }
  }

  lemma UnusedAt(files: map<Path, Content>)
    requires Unused(files)
    ensures At(files, BackupPy) == None && At(files, BackupWorkspace) == None
  {
  }

  method WriteOne(disk: Disk<Path, Content>, path: Path, content: Content) returns (status: Status)
    modifies disk
    ensures disk.calls == old(disk.calls) + 1 && status == disk.fault(old(disk.calls)).Outcome()
    ensures forall other :: other != path ==> At(disk.files, other) == At(old(disk.files), other)
    ensures status.Done? ==> At(disk.files, path) == Some(content)
  {
    status := disk.Write(path, content);
  }

  /** `if path.exists(): path.replace(backup)`. */
  method MoveToBackup(disk: Disk<Path, Content>, own: Path) returns (status: Status)
    requires own.BestPy? || own.BestWorkspace?
    requires At(disk.files, Backup(own)) == None
    modifies disk
    ensures Ran(disk.fault, old(disk.calls), One(own in old(disk.files)), disk.calls, status)
    ensures status.Done? ==> BackedUp(disk.files, old(disk.files), own)
    ensures status.Interrupted? ==> BackedUp(disk.files, old(disk.files), own) || disk.files == old(disk.files)
    ensures status.OsError? ==> disk.files == old(disk.files)
    ensures forall path :: path != own && path != Backup(own) ==> At(disk.files, path) == At(old(disk.files), path)
  {
    RanOnce(disk.fault, disk.calls);
    hide Ran;
    status := Done;
    if own in disk.files {
      status := disk.Rename(own, Backup(own));
    }
  }

  /** The second half of the `try` block: the old artifacts to their backups, the new ones into
      place. */
  method SwapIn(disk: Disk<Path, Content>, ghost writesManifest: bool)
    returns (status: Status, installedPy: bool, installedWorkspace: bool)
    requires At(disk.files, BackupPy) == None && At(disk.files, BackupWorkspace) == None
    requires TmpPy in disk.files && TmpWorkspace in disk.files
    modifies disk
    ensures var steps := One(BestPy in old(disk.files)) + One(BestWorkspace in old(disk.files)) + 2;
            && Ran(disk.fault, old(disk.calls), steps, disk.calls, status)
            && (status.OsError? ==>
                  var k := 2 + One(writesManifest) + Progress(disk.fault, old(disk.calls), steps);
                  && CanRollBack(disk.files, old(disk.files), installedPy, installedWorkspace)
                  && RollbackOps(disk.files, installedPy, installedWorkspace)
                     == UndoOps(old(disk.files), writesManifest, k))
    ensures Kept(disk.files, old(disk.files), BestPy) && Kept(disk.files, old(disk.files), BestWorkspace)
    ensures status.Done? ==>
      && IsPair(disk.files, At(old(disk.files), TmpPy), At(old(disk.files), TmpWorkspace))
      && TmpPy !in disk.files && TmpWorkspace !in disk.files
      && At(disk.files, BackupPy) == At(old(disk.files), BestPy)
      && At(disk.files, BackupWorkspace) == At(old(disk.files), BestWorkspace)
  {
    hide Progress, Smooth, One, RollbackOps, UndoOps, CanRollBack, Kept, At;
    PresentByAt(disk.files, TmpPy);
    PresentByAt(disk.files, TmpWorkspace);
    ghost var before, c, moved := disk.files, disk.calls, One(BestPy in disk.files) + One(BestWorkspace in disk.files);
    status := MoveOldArtifacts(disk);
    EitherWayIsKept(disk.files, before, BestPy);
    EitherWayIsKept(disk.files, before, BestWorkspace);
    if !status.Done? {
      RanThen(disk.fault, c, moved, 2, disk.calls, status, disk.calls, status);
      if status.OsError? {
        UndoOfMoving(disk.files, before, writesManifest, Progress(disk.fault, c, moved));
      }
      return status, false, false;
    }
    PresentByAt(disk.files, TmpPy);
    PresentByAt(disk.files, TmpWorkspace);
    status, installedPy, installedWorkspace := PutInPlace(disk);
    EitherWayIsKept(disk.files, before, BestPy);
    EitherWayIsKept(disk.files, before, BestWorkspace);
    RanThen(disk.fault, c, moved, 2, c + moved, Done, disk.calls, status);
    if status.OsError? {
      PresentByAt(disk.files, BestWorkspace);
      UndoOfPlacing(disk.files, before, writesManifest, Progress(disk.fault, c + moved, 2));
    }
  }

  lemma PresentByAt(files: map<Path, Content>, path: Path)
    ensures At(files, path).Some? <==> path in files
  {
  }

  /** The steps of the `try` block.  They stop at the first operation that does not work, and
      its number determines what a rollback has to do. */
  method Install(disk: Disk<Path, Content>, py: Content, workspace: Content, writesManifest: bool)
    returns (status: Status, installedPy: bool, installedWorkspace: bool)
    requires Unused(disk.files)
    modifies disk
    ensures Ran(disk.fault, old(disk.calls), SwapSteps(old(disk.files), writesManifest), disk.calls, status)
    ensures Kept(disk.files, old(disk.files), BestPy) && Kept(disk.files, old(disk.files), BestWorkspace)
    ensures status.Done? ==>
      && IsPair(disk.files, Some(py), Some(workspace)) && TmpPy !in disk.files && TmpWorkspace !in disk.files
      && At(disk.files, BackupPy) == At(old(disk.files), BestPy)
      && At(disk.files, BackupWorkspace) == At(old(disk.files), BestWorkspace)
    ensures status.OsError? ==>
      var k := Progress(disk.fault, old(disk.calls), SwapSteps(old(disk.files), writesManifest));
      && CanRollBack(disk.files, old(disk.files), installedPy, installedWorkspace)
      && RollbackOps(disk.files, installedPy, installedWorkspace) == UndoOps(old(disk.files), writesManifest, k)
  {
    hide *;
    PresentByAt(disk.files, BestPy);
    PresentByAt(disk.files, BestWorkspace);
    ghost var before, c, written := disk.files, disk.calls, 2 + One(writesManifest);
    ghost var steps := One(BestPy in disk.files) + One(BestWorkspace in disk.files) + 2;
    TwoHalves(before, writesManifest);
    status := WriteTemporaries(disk, py, workspace, writesManifest);
    RanMeans(disk.fault, c, written, disk.calls, status);
    ghost var middle, stopped := disk.files, disk.calls;
    if !status.Done? {
      RanThen(disk.fault, c, written, steps, stopped, status, stopped, status);
      UndoOfWriting(middle, before, writesManifest, Progress(disk.fault, c, written));
      return status, false, false;
    }
    PresentByAt(middle, TmpPy);
    PresentByAt(middle, TmpWorkspace);
    PresentByAt(middle, BestPy);
    PresentByAt(middle, BestWorkspace);
    status, installedPy, installedWorkspace := SwapIn(disk, writesManifest);
    RanThen(disk.fault, c, written, steps, stopped, Done, disk.calls, status);
    SameStart(disk.files, middle, before, installedPy, installedWorkspace);
    SameUndo(middle, before, writesManifest, written + Progress(disk.fault, stopped, steps));
  }

  lemma TwoHalves(before: map<Path, Content>, writesManifest: bool)
    ensures SwapSteps(before, writesManifest)
            == 2 + One(writesManifest) + (One(BestPy in before) + One(BestWorkspace in before) + 2)
  {
  }

  lemma SameUndo(middle: map<Path, Content>, before: map<Path, Content>, writesManifest: bool, k: nat)
    requires At(middle, BestPy) == At(before, BestPy) && At(middle, BestWorkspace) == At(before, BestWorkspace)
    ensures UndoOps(middle, writesManifest, k) == UndoOps(before, writesManifest, k)
  {
  }

  lemma SameStart(files: map<Path, Content>, middle: map<Path, Content>, before: map<Path, Content>,
                  installedPy: bool, installedWorkspace: bool)
    requires At(middle, BestPy) == At(before, BestPy) && At(middle, BestWorkspace) == At(before, BestWorkspace)
    ensures Kept(files, middle, BestPy) ==> Kept(files, before, BestPy)
    ensures Kept(files, middle, BestWorkspace) ==> Kept(files, before, BestWorkspace)
    ensures CanRollBack(files, middle, installedPy, installedWorkspace) ==>
              CanRollBack(files, before, installedPy, installedWorkspace)
  {
  }

  // ----- rollback and cleanup

  /** The errors that operations from number c on record: those of the ones that fail. */
  function ErrorsOf(fault: nat -> Fault<Content>, c: nat, ops: seq<RollbackError>): seq<RollbackError>
    decreases |ops|
  {
    if ops == [] then [] else (if fault(c).Fails? then [ops[0]] else []) + ErrorsOf(fault, c + 1, ops[1..])
  }

  /** The operations were tried one after the other; only an interrupt cuts them off. */
  predicate Tried(fault: nat -> Fault<Content>, c: nat, ops: seq<RollbackError>,
                  calls: nat, errors: seq<RollbackError>, cutOff: bool) {
    RanOn(fault, c, |ops|, calls, cutOff) && (!cutOff ==> errors == ErrorsOf(fault, c, ops))
  }

  lemma TriedOne(fault: nat -> Fault<Content>, c: nat, op: RollbackError)
    ensures Tried(fault, c, [], c, [], false)
    ensures fault(c).Interrupts? ==> Tried(fault, c, [op], c + 1, [], true)
    ensures !fault(c).Interrupts? ==> Tried(fault, c, [op], c + 1, if fault(c).Fails? then [op] else [], false)
  {
  }

  lemma {:induction false} TriedThen(
      fault: nat -> Fault<Content>, c: nat, first: seq<RollbackError>, second: seq<RollbackError>,
      middle: nat, some: seq<RollbackError>, calls: nat, more: seq<RollbackError>, cutOff: bool)
    requires Tried(fault, c, first, middle, some, false)
    requires Tried(fault, middle, second, calls, more, cutOff)
    ensures Tried(fault, c, first + second, calls, some + more, cutOff)
  {
    hide RanOn;
    RanOnThen(fault, c, |first|, |second|, middle, false, calls, cutOff);
    ErrorsConcat(fault, c, first, second);
    RanOnCount(fault, c, |first|, middle);
  }

  /** When a part of the operations is cut off, they all are. */
  lemma CutOffEarly(fault: nat -> Fault<Content>, c: nat, ops: seq<RollbackError>, done: seq<RollbackError>,
                    some: seq<RollbackError>, part: seq<RollbackError>, calls: nat, errors: seq<RollbackError>,
                    more: seq<RollbackError>)
    requires Tried(fault, c, done, c + |done|, some, false) && Tried(fault, c + |done|, part, calls, errors, true)
    requires |done| + |part| <= |ops|
    ensures Tried(fault, c, ops, calls, more, true)
  {
  }

  lemma RanOnCount(fault: nat -> Fault<Content>, c: nat, n: nat, calls: nat)
    requires RanOn(fault, c, n, calls, false)
    ensures calls == c + n
  {
  }

  lemma {:induction false} ErrorsConcat(
      fault: nat -> Fault<Content>, c: nat, first: seq<RollbackError>, second: seq<RollbackError>)
    ensures ErrorsOf(fault, c, first + second) == ErrorsOf(fault, c, first) + ErrorsOf(fault, c + |first|, second)
    decreases |first|
  {
    if first == [] {
      assert first + second == second;
    } else {
      hide ErrorsOf;
      ErrorsFirst(fault, c, first);
      ErrorsFirst(fault, c, first + second);
      FirstOfConcat(first, second);
      ErrorsConcat(fault, c + 1, first[1..], second);
      assert c + 1 + |first[1..]| == c + |first|;
      Regrouped(if fault(c).Fails? then [first[0]] else [],
                ErrorsOf(fault, c + 1, first[1..]), ErrorsOf(fault, c + |first|, second));
    }
  }

  lemma FirstOfConcat(first: seq<RollbackError>, second: seq<RollbackError>)
    requires first != []
    ensures (first + second)[0] == first[0] && (first + second)[1..] == first[1..] + second
  {
  }

  lemma Regrouped(a: seq<RollbackError>, b: seq<RollbackError>, c: seq<RollbackError>)
    ensures a + (b + c) == (a + b) + c
  {
  }

  lemma ErrorsFirst(fault: nat -> Fault<Content>, c: nat, ops: seq<RollbackError>)
    requires ops != []
    ensures ErrorsOf(fault, c, ops)
            == (if fault(c).Fails? then [ops[0]] else []) + ErrorsOf(fault, c + 1, ops[1..])
  {
  }

  /** No operation records an error exactly when all of them work, unless one is interrupted. */
  lemma {:induction false} ErrorsMeaning(fault: nat -> Fault<Content>, c: nat, ops: seq<RollbackError>)
    ensures Smooth(fault, c, |ops|) <==> ErrorsOf(fault, c, ops) == [] && Uninterrupted(fault, c, |ops|)
    ensures ErrorsOf(fault, c, ops) != [] ==> exists n :: c <= n < c + |ops| && fault(n).Fails?
    decreases |ops|
  {
    if ops != [] {
      ErrorsMeaning(fault, c + 1, ops[1..]);
      SmoothSplits(fault, c, 1, |ops| - 1);
      assert Uninterrupted(fault, c, |ops|) <==> !fault(c).Interrupts? && Uninterrupted(fault, c + 1, |ops| - 1);
      assert c <= c < c + |ops|;
    }
  }

  /** Moves a backup back; an error is recorded and the backup is then preserved. */
  method RestoreOne(disk: Disk<Path, Content>, own: Path, restoreError: RollbackError)
    returns (errors: seq<RollbackError>, cutOff: bool)
    requires own.BestPy? || own.BestWorkspace?
    modifies disk
    ensures Tried(disk.fault, old(disk.calls), if Backup(own) in old(disk.files) then [restoreError] else [],
                  disk.calls, errors, cutOff)
    ensures forall path :: path != own && path != Backup(own) ==> At(disk.files, path) == At(old(disk.files), path)
    ensures !cutOff && errors == [] && Backup(own) in old(disk.files) ==>
              At(disk.files, own) == At(old(disk.files), Backup(own)) && At(disk.files, Backup(own)) == None
    ensures Backup(own) !in old(disk.files) ==> disk.files == old(disk.files) && errors == []
    ensures errors != [] ==> errors == [restoreError] && disk.files == old(disk.files) && !cutOff
    ensures At(disk.files, own) == At(old(disk.files), Backup(own)) || disk.files == old(disk.files)
  {
    errors, cutOff := [], false;
    TriedOne(disk.fault, disk.calls, restoreError);
    hide Tried;
    if Backup(own) in disk.files {
      var status := disk.Rename(Backup(own), own);
      if status.Interrupted? { return [], true; }
      if status.OsError? { errors := [restoreError]; }
    }
  }

  /** Removes what was installed. */
  method RemoveInstalled(disk: Disk<Path, Content>, installed: bool, own: Path, removeError: RollbackError)
    returns (errors: seq<RollbackError>, cutOff: bool)
    requires own.BestPy? || own.BestWorkspace?
    modifies disk
    ensures Tried(disk.fault, old(disk.calls), if installed && own in old(disk.files) then [removeError] else [],
                  disk.calls, errors, cutOff)
    ensures forall path :: path != own ==> At(disk.files, path) == At(old(disk.files), path)
    ensures !installed ==> disk.files == old(disk.files) && errors == []
    ensures installed && !cutOff && errors == [] ==> At(disk.files, own) == None
    ensures errors == [] || errors == [removeError]
  {
    errors, cutOff := [], false;
    TriedOne(disk.fault, disk.calls, removeError);
    hide Tried;
    if installed && own in disk.files {
      var status := disk.Remove(own);
      if status.Interrupted? { return [], true; }
      if status.OsError? { errors := [removeError]; }
    }
  }

  function BackupOps(files: map<Path, Content>): seq<RollbackError> {
    (if BackupPy in files then [RestorePy] else []) + (if BackupWorkspace in files then [RestoreWorkspace] else [])
  }

  /** The artifact has got its backup back. */
  predicate MovedBack(files: map<Path, Content>, before: map<Path, Content>, own: Path) {
    At(files, own) == At(before, Backup(own)) && At(files, Backup(own)) == None
  }

  predicate SameAt(files: map<Path, Content>, before: map<Path, Content>, own: Path) {
    At(files, own) == At(before, own) && At(files, Backup(own)) == At(before, Backup(own))
  }

  /** The second half of the rollback: every backup is moved back, or preserved when that fails. */
  method RestoreBackups(disk: Disk<Path, Content>)
    returns (errors: seq<RollbackError>, preserve: set<Path>, cutOff: bool)
    modifies disk
    ensures Tried(disk.fault, old(disk.calls), BackupOps(old(disk.files)), disk.calls, errors, cutOff)
    ensures !cutOff ==>
      && preserve == (if RestorePy in errors then {BackupPy} else {})
                     + (if RestoreWorkspace in errors then {BackupWorkspace} else {})
      && (if BackupPy in old(disk.files) && RestorePy !in errors
          then MovedBack(disk.files, old(disk.files), BestPy) else SameAt(disk.files, old(disk.files), BestPy))
      && (if BackupWorkspace in old(disk.files) && RestoreWorkspace !in errors
          then MovedBack(disk.files, old(disk.files), BestWorkspace)
          else SameAt(disk.files, old(disk.files), BestWorkspace))
    ensures || SameAt(disk.files, old(disk.files), BestPy)
            || (BackupPy in old(disk.files) && At(disk.files, BestPy) == At(old(disk.files), BackupPy))
    ensures || SameAt(disk.files, old(disk.files), BestWorkspace)
            || (&& BackupWorkspace in old(disk.files)
                && At(disk.files, BestWorkspace) == At(old(disk.files), BackupWorkspace))
  {
    hide Tried;
    preserve := {};
    var failed;
    ghost var c := disk.calls;
    ghost var py: seq<RollbackError> := if BackupPy in disk.files then [RestorePy] else [];
    ghost var workspace: seq<RollbackError> := if BackupWorkspace in disk.files then [RestoreWorkspace] else [];
    TriedOne(disk.fault, c, RestorePy);
    errors, cutOff := RestoreOne(disk, BestPy, RestorePy);
    if cutOff {
      assert c == c + 0;
      CutOffEarly(disk.fault, c, py + workspace, [], [], py, disk.calls, errors, errors);
      return;
    }
    if errors != [] { preserve := preserve + {BackupPy}; }
    TriedCount(disk.fault, c, py, disk.calls, errors);
    failed, cutOff := RestoreOne(disk, BestWorkspace, RestoreWorkspace);
    if cutOff {
      CutOffEarly(disk.fault, c, py + workspace, py, errors, workspace, disk.calls, failed, errors);
      return;
    }
    if failed != [] { preserve := preserve + {BackupWorkspace}; }
    TriedThen(disk.fault, c, py, workspace, c + |py|, errors, disk.calls, failed, false);
    errors := errors + failed;
  }

  /** `_rollback_best_artifact_export`.  Every operation is tried, whatever the others did; the
      errors are exactly those of the operations that fail, and a backup is preserved exactly
      when it could not be moved back.  When all of them work the old pair is back. */
  method Rollback(disk: Disk<Path, Content>, installedPy: bool, installedWorkspace: bool,
                  ghost before: map<Path, Content>)
    returns (errors: seq<RollbackError>, preserve: set<Path>, cutOff: bool)
    requires CanRollBack(disk.files, before, installedPy, installedWorkspace)
    modifies disk
    ensures Tried(disk.fault, old(disk.calls), RollbackOps(old(disk.files), installedPy, installedWorkspace),
                  disk.calls, errors, cutOff)
    ensures Kept(disk.files, before, BestPy) && Kept(disk.files, before, BestWorkspace)
    ensures !cutOff && errors == [] ==> IsPair(disk.files, At(before, BestPy), At(before, BestWorkspace))
    ensures !cutOff ==>
      preserve == (if RestorePy in errors then {BackupPy} else {})
                  + (if RestoreWorkspace in errors then {BackupWorkspace} else {})
    ensures !cutOff ==>
          && (At(disk.files, BackupPy) != None ==> BackupPy in preserve)
          && (At(disk.files, BackupWorkspace) != None ==> BackupWorkspace in preserve)
  {
    hide Tried;
    preserve := {};
    var failed;
    ghost var c, ops := disk.calls, RollbackOps(disk.files, installedPy, installedWorkspace);
    ghost var remove: seq<RollbackError> :=
      if installedWorkspace && BestWorkspace in disk.files then [RemoveInstalledWorkspace] else [];
    ghost var restore := BackupOps(disk.files);
    assert ops == remove + restore;
    TriedOne(disk.fault, c, RestorePy);
    errors, cutOff := RemoveInstalled(disk, installedPy, BestPy, RemoveInstalledPy);
    NothingTried(disk.fault, c, disk.calls, errors, cutOff);
    failed, cutOff := RemoveInstalled(disk, installedWorkspace, BestWorkspace, RemoveInstalledWorkspace);
    if cutOff {
      CutOffEarly(disk.fault, c, ops, [], [], remove, disk.calls, failed, errors);
      return;
    }
    assert errors + failed == failed;
    errors := errors + failed;
    TriedCount(disk.fault, c, remove, disk.calls, errors);
    failed, preserve, cutOff := RestoreBackups(disk);
    if cutOff {
      CutOffEarly(disk.fault, c, ops, remove, errors, restore, disk.calls, failed, errors);
      return;
    }
    TriedThen(disk.fault, c, remove, restore, c + |remove|, errors, disk.calls, failed, false);
    errors := errors + failed;
  }

  lemma TriedCount(fault: nat -> Fault<Content>, c: nat, ops: seq<RollbackError>,
                   calls: nat, errors: seq<RollbackError>)
    requires Tried(fault, c, ops, calls, errors, false)
    ensures calls == c + |ops|
  {
  }

  lemma NothingTried(fault: nat -> Fault<Content>, c: nat, calls: nat, errors: seq<RollbackError>, cutOff: bool)
    requires Tried(fault, c, [], calls, errors, cutOff)
    ensures !cutOff && calls == c && errors == []
  {
  }

  const CLEANUP: seq<Path> := [TmpPy, TmpWorkspace, BackupPy, BackupWorkspace]

  /** How many of the first n cleanup paths are there to be removed. */
  function Present(files: map<Path, Content>, preserve: set<Path>, n: nat): nat
    requires n <= |CLEANUP|
  {
    if n == 0 then 0
    else Present(files, preserve, n - 1) + One(CLEANUP[n - 1] in files && CLEANUP[n - 1] !in preserve)
  }

  /** One path of the cleanup. */
  method CleanupOne(disk: Disk<Path, Content>, path: Path, preserve: set<Path>) returns (status: Status)
    modifies disk
    ensures forall other :: other != path || path in preserve ==> At(disk.files, other) == At(old(disk.files), other)
    ensures status.Done? && path !in preserve ==> path !in disk.files
    ensures disk.calls == old(disk.calls) + One(path in old(disk.files) && path !in preserve)
    ensures RanOn(disk.fault, old(disk.calls), One(path in old(disk.files) && path !in preserve), disk.calls,
                  status.Interrupted?)
    ensures status.Done? <==> Smooth(disk.fault, old(disk.calls), One(path in old(disk.files) && path !in preserve))
  {
    status := Done;
    if path !in preserve {
      status := disk.Remove(path);
    }
  }

  /** `_cleanup_best_artifact_export_paths`: every path but the preserved ones is removed,
      whatever happens to the others; failures are collected. */
  method Cleanup(disk: Disk<Path, Content>, preserve: set<Path>) returns (errors: set<Path>, cutOff: bool)
    modifies disk
    ensures RanOn(disk.fault, old(disk.calls), Present(old(disk.files), preserve, |CLEANUP|), disk.calls, cutOff)
    ensures forall path :: path !in CLEANUP || path in preserve ==> At(disk.files, path) == At(old(disk.files), path)
    ensures !cutOff ==> forall path <- CLEANUP :: path in disk.files ==> path in preserve || path in errors
    ensures !cutOff && errors == {} <==>
            Smooth(disk.fault, old(disk.calls), Present(old(disk.files), preserve, |CLEANUP|))
  {
    hide Smooth, One, CleanedUp, RanOn, Uninterrupted, Present;
    ghost var before, c := disk.files, disk.calls;
    errors := {};
    SmoothSplits(disk.fault, c, 0, 0);
    NoneCleanedUp(disk.files, preserve);
    PresentNone(disk.files, preserve);
    RanOnNothing(disk.fault, c);
    for i := 0 to |CLEANUP|
      invariant forall path :: path !in CLEANUP[..i] || path in preserve ==> At(disk.files, path) == At(before, path)
      invariant CleanedUp(disk.files, preserve, errors, i)
      invariant disk.calls == c + Present(before, preserve, i)
      invariant RanOn(disk.fault, c, Present(before, preserve, i), disk.calls, false)
      invariant errors == {} <==> Smooth(disk.fault, c, Present(before, preserve, i))
    {
      var path := CLEANUP[i];
      OnceInCleanup(i);
      assert At(disk.files, path) == At(before, path);
      ghost var done, more := Present(before, preserve, i), Present(before, preserve, i + 1);
      PresentNext(before, preserve, i);
      PresentGrows(before, preserve, i + 1, |CLEANUP|);
      SmoothSplits(disk.fault, c, done, more - done);
      SmoothSplits(disk.fault, c, more, Present(before, preserve, |CLEANUP|) - more);
      ghost var was := disk.files;
      var status := CleanupOne(disk, path, preserve);
      RanOnThen(disk.fault, c, done, more - done, c + done, false, disk.calls, status.Interrupted?);
      if status.Interrupted? {
        RanOnThen(disk.fault, c, more, Present(before, preserve, |CLEANUP|) - more, disk.calls, true, disk.calls, true);
        return errors, true;
      }
      OneMoreCleanedUp(disk.files, was, preserve, errors, i, status.OsError?);
      if status.OsError? { errors := errors + {path}; }
    }
    AllCleanedUp(disk.files, preserve, errors);
    cutOff := false;
  }

  /** The first i cleanup paths are gone, preserved or reported. */
  predicate CleanedUp(files: map<Path, Content>, preserve: set<Path>, errors: set<Path>, i: nat)
    requires i <= |CLEANUP|
  {
    forall path <- CLEANUP[..i] :: path in files ==> path in preserve || path in errors
  }

  lemma NoneCleanedUp(files: map<Path, Content>, preserve: set<Path>)
    ensures CleanedUp(files, preserve, {}, 0)
  {
  }

  lemma {:induction false} AllCleanedUp(files: map<Path, Content>, preserve: set<Path>, errors: set<Path>)
    requires CleanedUp(files, preserve, errors, |CLEANUP|)
    ensures forall path <- CLEANUP :: path in files ==> path in preserve || path in errors
  {
    assert CLEANUP[..|CLEANUP|] == CLEANUP;
  }

  lemma {:induction false} OneMoreCleanedUp(
      files: map<Path, Content>, was: map<Path, Content>, preserve: set<Path>, errors: set<Path>, i: nat, failed: bool)
    requires i < |CLEANUP| && CleanedUp(was, preserve, errors, i)
    requires forall other :: other != CLEANUP[i] ==> At(files, other) == At(was, other)
    requires !failed && CLEANUP[i] !in preserve ==> CLEANUP[i] !in files
    ensures CleanedUp(files, preserve, if failed then errors + {CLEANUP[i]} else errors, i + 1)
  {
    OnceInCleanup(i);
    forall path <- CLEANUP[..i + 1]
      ensures path in files ==> path in preserve || path in errors || (failed && path == CLEANUP[i])
    {
      assert path != CLEANUP[i] ==> path in CLEANUP[..i] && At(files, path) == At(was, path);
    }
  }

  lemma OnceInCleanup(i: nat)
    requires i < |CLEANUP|
    ensures CLEANUP[i] !in CLEANUP[..i] && CLEANUP[..i + 1] == CLEANUP[..i] + [CLEANUP[i]]
    ensures CLEANUP[..|CLEANUP|] == CLEANUP && forall path <- CLEANUP[..i + 1] :: path in CLEANUP
  {
  }

  lemma PresentNone(files: map<Path, Content>, preserve: set<Path>)
    ensures Present(files, preserve, 0) == 0
  {
  }

  lemma PresentNext(files: map<Path, Content>, preserve: set<Path>, i: nat)
    requires i < |CLEANUP|
    ensures Present(files, preserve, i + 1)
            == Present(files, preserve, i) + One(CLEANUP[i] in files && CLEANUP[i] !in preserve)
  {
  }

  lemma {:induction false} PresentGrows(files: map<Path, Content>, preserve: set<Path>, m: nat, n: nat)
    requires m <= n <= |CLEANUP|
    ensures Present(files, preserve, m) <= Present(files, preserve, n)
  {
    if m < n { PresentGrows(files, preserve, m, n - 1); }
  }

  // ----- the export

  /** The old artifact is at its own path, or at its backup and the backup is preserved. */
  predicate Survives(files: map<Path, Content>, before: map<Path, Content>, own: Path, preserved: set<Path>) {
    own in before ==>
      At(files, own) == At(before, own) || (At(files, Backup(own)) == At(before, own) && Backup(own) in preserved)
  }

  /** The handler of a failed swap: rollback, then cleanup. */
  method UndoSwap(disk: Disk<Path, Content>, installedPy: bool, installedWorkspace: bool,
                  ghost before: map<Path, Content>)
    returns (result: Result)
    requires CanRollBack(disk.files, before, installedPy, installedWorkspace)
    modifies disk
    ensures !result.Exported? && RanThrough(disk.fault, old(disk.calls), disk.calls, result.CutOff?)
    ensures Kept(disk.files, before, BestPy) && Kept(disk.files, before, BestWorkspace)
    ensures var ops := RollbackOps(old(disk.files), installedPy, installedWorkspace);
            && (result.Failed? ==>
                  && result.rollback == ErrorsOf(disk.fault, old(disk.calls), ops)
                  && old(disk.calls) + |ops| <= disk.calls
                  && result.preserved == (if RestorePy in result.rollback then {BackupPy} else {})
                                         + (if RestoreWorkspace in result.rollback then {BackupWorkspace} else {})
                  && Survives(disk.files, before, BestPy, result.preserved)
                  && Survives(disk.files, before, BestWorkspace, result.preserved))
            && (Smooth(disk.fault, old(disk.calls), |ops|) ==>
                  IsPair(disk.files, At(before, BestPy), At(before, BestWorkspace)))
            && (!Uninterrupted(disk.fault, old(disk.calls), |ops|) ==> result.CutOff?)
    ensures result.Failed? && result.rollback == [] ==>
      IsPair(disk.files, At(before, BestPy), At(before, BestWorkspace))
    ensures result.Failed? ==>
      forall path <- CLEANUP :: path in disk.files ==> path in result.preserved || path in result.cleanup
    ensures FineFrom(disk.fault, old(disk.calls)) ==> result == Failed([], {}, {})
  {
    hide Smooth, Uninterrupted, RanOn, RanThrough, ErrorsOf, RollbackOps, FineFrom, CanRollBack, Tried, Present;
    ghost var c, ops := disk.calls, RollbackOps(disk.files, installedPy, installedWorkspace);
    FineFromIsSmooth(disk.fault, c, c, |ops|);
    var errors, preserve, cutOff := Rollback(disk, installedPy, installedWorkspace, before);
    TriedMeans(disk.fault, c, ops, disk.calls, errors, cutOff);
    if cutOff { return CutOff; }
    ghost var rolledBack, n := disk.files, Present(disk.files, preserve, |CLEANUP|);
    FineFromIsSmooth(disk.fault, c, disk.calls, n);
    ghost var middle := disk.calls;
    var failures, stopped := Cleanup(disk, preserve);
    CleanupKeepsPair(disk.files, rolledBack, before, preserve);
    ThroughRanOn(disk.fault, middle, n, disk.calls, stopped);
    ThroughThen(disk.fault, c, middle, disk.calls, stopped);
    if stopped { return CutOff; }
    return Failed(errors, failures, preserve);
  }

  /** For every way the disk may fail; k is the number of operations of the swap that work
      before the first that does not.  The export succeeds exactly when every operation of the
      swap and of the cleanup works, and then leaves exactly the new pair.  When the swap works,
      nothing takes the new pair back: only the cleanup can fail.  When its operation k fails,
      the errors of the rollback are exactly those of its operations that fail, each old artifact
      is at its own path or at a preserved backup, and the old pair is back when the operations
      of the rollback work.  So a mixed pair takes two failures, and after a single failure the
      directory is as it was.  It is cut off exactly at the first interrupt, and that loses no
      old artifact before the new pair is in place. */
  method WriteBestArtifacts(disk: Disk<Path, Content>, py: Content, workspace: Content, writesManifest: bool)
    returns (result: Result)
    requires Unused(disk.files)
    modifies disk
    ensures var before, swap := old(disk.files), SwapSteps(old(disk.files), writesManifest);
            var fault, c, k := disk.fault, old(disk.calls), Progress(disk.fault, old(disk.calls), swap);
            && (result.Exported? <==> Smooth(fault, c, swap + One(BestPy in before) + One(BestWorkspace in before)))
            && (k == swap ==>
                  && IsPair(disk.files, Some(py), Some(workspace))
                  && (result.Failed? ==> result.rollback == [] && result.preserved == {} && result.cleanup != {}))
            && (k < swap && fault(c + k).Interrupts? ==> result.CutOff? && disk.calls == c + k + 1)
            && (k < swap && fault(c + k).Fails? ==>
                  var undo := UndoOps(before, writesManifest, k);
                  && (result.Failed? ==>
                        && result.rollback == ErrorsOf(fault, c + k + 1, undo)
                        && Survives(disk.files, before, BestPy, result.preserved)
                        && Survives(disk.files, before, BestWorkspace, result.preserved))
                  && (Smooth(fault, c + k + 1, |undo|) ==>
                        IsPair(disk.files, At(before, BestPy), At(before, BestWorkspace)))
                  && (!Uninterrupted(fault, c + k + 1, |undo|) ==> result.CutOff?))
            && (k < swap ==> Kept(disk.files, before, BestPy) && Kept(disk.files, before, BestWorkspace))
            && (k < swap && result.Failed? && result.rollback == [] ==>
                  IsPair(disk.files, At(before, BestPy), At(before, BestWorkspace)))
            && (OneFailureIn(fault, c, swap) ==> result == Failed([], {}, {}) && disk.files == before)
    ensures RanThrough(disk.fault, old(disk.calls), disk.calls, result.CutOff?)
    ensures result.Exported? ==> disk.files == map[BestPy := py, BestWorkspace := workspace]
    ensures result.Failed? ==>
      && (forall path <- CLEANUP :: path in disk.files ==> path in result.preserved || path in result.cleanup)
      && result.preserved == (if RestorePy in result.rollback then {BackupPy} else {})
                             + (if RestoreWorkspace in result.rollback then {BackupWorkspace} else {})
      && (result.rollback != [] ==> TwoFailures(disk.fault, old(disk.calls), disk.calls))
  {
    hide Smooth, Uninterrupted, RanOn, RanThrough, ErrorsOf, RollbackOps, UndoOps, FineFrom, OneFailureIn, TwoFailures;
    hide CanRollBack, Present, SwapSteps, Progress, One, Survives, Kept;
    ghost var before, c, swap := disk.files, disk.calls, SwapSteps(disk.files, writesManifest);
    var status, installedPy, installedWorkspace := Install(disk, py, workspace, writesManifest);
    ghost var middle := disk.calls;
    ThroughRan(disk.fault, c, swap, disk.calls, status);
    if OneFailureIn(disk.fault, c, swap) { OneFailureInTheSwap(disk.fault, c, swap); }
    if !status.Done? { NotSmooth(disk.fault, c, swap, One(BestPy in before) + One(BestWorkspace in before)); }
    if status.Interrupted? { return CutOff; }
    if status.OsError? {
      result := UndoSwap(disk, installedPy, installedWorkspace, before);
      ThroughThen(disk.fault, c, middle, disk.calls, result.CutOff?);
      if result.Failed? {
        ErrorsAreFailures(disk.fault, c, middle, disk.calls,
                          UndoOps(before, writesManifest, Progress(disk.fault, c, swap)));
      }
      BackToBefore(disk.files, before);
      return;
    }
    ghost var installed, n := disk.files, One(BestPy in before) + One(BestWorkspace in before);
    BackupsPresent(installed, before);
    SmoothSplits(disk.fault, c, swap, n);
    var failures, stopped := Cleanup(disk, {});
    CleanupKeepsOwn(disk.files, installed);
    ThroughRanOn(disk.fault, middle, n, disk.calls, stopped);
    ThroughThen(disk.fault, c, middle, disk.calls, stopped);
    if stopped { return CutOff; }
    if failures != {} { return Failed([], failures, {}); }
    OnlyThePair(disk.files, py, workspace);
    return Exported;
  }

  lemma {:induction false} TriedMeans(fault: nat -> Fault<Content>, c: nat, ops: seq<RollbackError>,
                   calls: nat, errors: seq<RollbackError>, cutOff: bool)
    requires Tried(fault, c, ops, calls, errors, cutOff)
    ensures RanOn(fault, c, |ops|, calls, cutOff) && RanThrough(fault, c, calls, cutOff)
    ensures !cutOff ==> calls == c + |ops| && errors == ErrorsOf(fault, c, ops)
    ensures cutOff <==> !Uninterrupted(fault, c, |ops|)
    ensures Smooth(fault, c, |ops|) ==> !cutOff && errors == []
  {
    hide Smooth;
    ThroughRanOn(fault, c, |ops|, calls, cutOff);
    ErrorsMeaning(fault, c, ops);
  }

  lemma FineFromIsSmooth(fault: nat -> Fault<Content>, c: nat, middle: nat, n: nat)
    requires c <= middle
    ensures FineFrom(fault, c) ==> Smooth(fault, c, middle - c) && Smooth(fault, middle, n)
  {
  }

  lemma NotSmooth(fault: nat -> Fault<Content>, c: nat, m: nat, n: nat)
    requires Progress(fault, c, m) < m
    ensures !Smooth(fault, c, m + n) && !Smooth(fault, c, m)
  {
  }

  /** A single failure in the swap is where the swap stops, and everything after it works. */
  lemma {:induction false} OneFailureInTheSwap(fault: nat -> Fault<Content>, c: nat, swap: nat)
    requires OneFailureIn(fault, c, swap)
    ensures var k := Progress(fault, c, swap);
            k < swap && fault(c + k).Fails? && FineFrom(fault, c + k + 1)
  {
    hide Progress;
    var n :| c <= n < c + swap && OneFailure(fault, n);
  }

  /** The errors of a rollback come from operations that fail after the one of the swap. */
  lemma {:induction false} ErrorsAreFailures(
      fault: nat -> Fault<Content>, c: nat, middle: nat, calls: nat, ops: seq<RollbackError>)
    requires c < middle && middle + |ops| <= calls && fault(middle - 1).Fails?
    ensures ErrorsOf(fault, middle, ops) != [] ==> TwoFailures(fault, c, calls)
  {
    ErrorsMeaning(fault, middle, ops);
    if ErrorsOf(fault, middle, ops) != [] {
      var n :| middle <= n < middle + |ops| && fault(n).Fails?;
      assert c <= middle - 1 < n < calls;
    }
  }

  lemma {:induction false} SameFiles(files: map<Path, Content>, before: map<Path, Content>)
    requires forall path :: At(files, path) == At(before, path)
    ensures files == before
  {
    forall path
      ensures path in files <==> path in before
      ensures path in files ==> files[path] == before[path]
    {
      assert At(files, path) == At(before, path);
    }
  }

  /** The old pair and no leftovers: the directory is as it was. */
  lemma {:induction false} BackToBefore(files: map<Path, Content>, before: map<Path, Content>)
    requires Unused(before)
    ensures IsPair(files, At(before, BestPy), At(before, BestWorkspace)) && (forall path <- CLEANUP :: path !in files)
            ==> files == before
  {
    if IsPair(files, At(before, BestPy), At(before, BestWorkspace)) && forall path <- CLEANUP :: path !in files {
      assert CLEANUP[0] == TmpPy && CLEANUP[1] == TmpWorkspace;
      assert CLEANUP[2] == BackupPy && CLEANUP[3] == BackupWorkspace;
      assert TmpPy !in files && TmpWorkspace !in files && BackupPy !in files && BackupWorkspace !in files;
      forall path ensures At(files, path) == At(before, path) {
        assert path == BestPy || path == BestWorkspace || (path !in files && path !in before);
      }
      SameFiles(files, before);
    }
  }

  /** After a swap, what is left to clean up are the backups of the old artifacts. */
  lemma {:induction false} BackupsPresent(files: map<Path, Content>, before: map<Path, Content>)
    requires TmpPy !in files && TmpWorkspace !in files
    requires At(files, BackupPy) == At(before, BestPy) && At(files, BackupWorkspace) == At(before, BestWorkspace)
    ensures Present(files, {}, |CLEANUP|) == One(BestPy in before) + One(BestWorkspace in before)
  {
    assert Present(files, {}, 1) == 0 && Present(files, {}, 2) == 0;
    assert Present(files, {}, 3) == One(BestPy in before);
  }

  lemma {:induction false} CleanupKeepsOwn(files: map<Path, Content>, before: map<Path, Content>)
    requires forall path :: path !in CLEANUP ==> At(files, path) == At(before, path)
    ensures IsPair(files, At(before, BestPy), At(before, BestWorkspace))
  {
    assert BestPy !in CLEANUP && BestWorkspace !in CLEANUP;
  }

  lemma {:induction false} CleanupKeepsPair(
      files: map<Path, Content>, rolledBack: map<Path, Content>, before: map<Path, Content>, preserve: set<Path>)
    requires Kept(rolledBack, before, BestPy) && Kept(rolledBack, before, BestWorkspace)
    requires At(rolledBack, BackupPy) != None ==> BackupPy in preserve
    requires At(rolledBack, BackupWorkspace) != None ==> BackupWorkspace in preserve
    requires forall path :: path !in CLEANUP || path in preserve ==> At(files, path) == At(rolledBack, path)
    ensures Survives(files, before, BestPy, preserve) && Survives(files, before, BestWorkspace, preserve)
    ensures Kept(files, before, BestPy) && Kept(files, before, BestWorkspace)
    ensures IsPair(files, At(rolledBack, BestPy), At(rolledBack, BestWorkspace))
  {
    assert BestPy !in CLEANUP && BestWorkspace !in CLEANUP;
  }

  lemma {:induction false} OnlyThePair(files: map<Path, Content>, py: Content, workspace: Content)
    requires IsPair(files, Some(py), Some(workspace))
    requires forall path <- CLEANUP :: path !in files
    ensures files == map[BestPy := py, BestWorkspace := workspace]
  {
    assert CLEANUP[0] == TmpPy && CLEANUP[1] == TmpWorkspace && CLEANUP[2] == BackupPy && CLEANUP[3] == BackupWorkspace;
    forall path ensures path in files <==> path == BestPy || path == BestWorkspace {
      match path
      case _ =>
    }
  }
}
