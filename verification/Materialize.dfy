/** `CandidateWorkspace.materialize` (libreevolve/core/candidate.py): a file tree is written
    beside the old one and swapped in with two renames, on a disk whose operations may fail
    or be interrupted. */
module Materialize {
  import opened Text
  import opened FaultyDisk

  /** The target directory and its two siblings, whose names are new. */
  datatype Place = Root | Temp | Backup

  type Tree = map<string, string>

  type TreeDisk = Disk<Place, Tree>

  /** A relative path with its bytes: the files, then the static files that have content. */
  datatype Entry = Entry(path: string, content: string)

  /** `afterSwap`: the error came from removing the backup of the old tree. */
  datatype Result = Materialized | Raised(afterSwap: bool)

  function At(files: map<Place, Tree>, place: Place): Option<Tree> {
    if place in files then Some(files[place]) else None
  }

  function TreeOf(entries: seq<Entry>): Tree {
    if entries == [] then map[]
    else TreeOf(entries[..|entries| - 1])[entries[|entries| - 1].path := entries[|entries| - 1].content]
  }

  /** Two entries whose paths are the same for the file system. */
  predicate Collide(entries: seq<Entry>, key: string -> string) {
    exists i, j :: 0 <= i < j < |entries| && key(entries[i].path) == key(entries[j].path)
  }

  method HasCollision(entries: seq<Entry>, key: string -> string) returns (collides: bool)
    ensures collides <==> Collide(entries, key)
  {
    var targets: set<string> := {};
    for i := 0 to |entries|
      invariant targets == set k | 0 <= k < i :: key(entries[k].path)
      invariant !Collide(entries[..i], key)
    {
      var target := key(entries[i].path);
      if target in targets {
        var k :| 0 <= k < i && key(entries[k].path) == target;
        return true;
      }
      targets := targets + {target};
    }
    assert entries[..|entries|] == entries;
    return false;
  }

  /** Without a collision every entry is in the tree, with its own content. */
  lemma {:induction false} TreeHoldsEveryEntry(entries: seq<Entry>, key: string -> string, i: nat)
    requires !Collide(entries, key) && i < |entries|
    ensures entries[i].path in TreeOf(entries) && TreeOf(entries)[entries[i].path] == entries[i].content
    ensures forall path <- TreeOf(entries) :: exists k :: 0 <= k < |entries| && entries[k].path == path
    decreases |entries|
  {
    var init, last := entries[..|entries| - 1], entries[|entries| - 1];
    TreeHasOnlyEntries(entries);
    if i < |init| {
      assert forall a, b :: 0 <= a < b < |init| ==>
        key(init[a].path) == key(entries[a].path) && key(init[b].path) == key(entries[b].path);
      TreeHoldsEveryEntry(init, key, i);
      assert key(entries[i].path) != key(last.path);
    }
  }

  lemma {:induction false} TreeHasOnlyEntries(entries: seq<Entry>)
    ensures forall path <- TreeOf(entries) :: exists k :: 0 <= k < |entries| && entries[k].path == path
    decreases |entries|
  {
    if entries != [] {
      var init, last := entries[..|entries| - 1], entries[|entries| - 1];
      TreeHasOnlyEntries(init);
      forall path <- TreeOf(entries) ensures exists k :: 0 <= k < |entries| && entries[k].path == path {
        if path == last.path {
          assert entries[|entries| - 1].path == path;
        } else {
          assert path in TreeOf(init);
          var k :| 0 <= k < |init| && init[k].path == path;
          assert entries[k].path == path;
        }
      }
    }
  }

  /** The old tree is at hand: at the target, or at its backup. */
  predicate OldTreeKept(files: map<Place, Tree>, before: map<Place, Tree>) {
    At(files, Root) == At(before, Root) || At(files, Backup) == At(before, Root)
  }

  /** Writes the files one by one into the temporary directory. */
  method WriteFiles(disk: TreeDisk, entries: seq<Entry>) returns (ok: bool)
    modifies disk
    ensures At(disk.files, Root) == At(old(disk.files), Root) && At(disk.files, Backup) == At(old(disk.files), Backup)
    ensures ok <==> Smooth(disk.fault, old(disk.calls), |entries| + 1)
    ensures ok ==> At(disk.files, Temp) == Some(TreeOf(entries)) && disk.calls == old(disk.calls) + |entries| + 1
    ensures !ok && OneFailureAfter(disk.fault, old(disk.calls)) ==> Temp !in disk.files
  {
    hide OneFailureAfter, FineFrom;
    if OneFailureAfter(disk.fault, disk.calls) && !disk.fault(disk.calls).Fine? {
      FineAfterTheFailure(disk.fault, disk.calls, disk.calls);
    }
    var status := disk.Write(Temp, map[]);
    if !status.Done? { return false; }
    for i := 0 to |entries|
      invariant At(disk.files, Root) == At(old(disk.files), Root)
      invariant At(disk.files, Backup) == At(old(disk.files), Backup)
      invariant At(disk.files, Temp) == Some(TreeOf(entries[..i]))
      invariant disk.calls == old(disk.calls) + i + 1 && Smooth(disk.fault, old(disk.calls), i + 1)
    {
      assert entries[..i + 1][..i] == entries[..i];
      status := disk.Write(Temp, disk.files[Temp][entries[i].path := entries[i].content]);
      if !status.Done? {
        if OneFailureAfter(disk.fault, old(disk.calls)) {
          FineAfterTheFailure(disk.fault, old(disk.calls), disk.calls - 1);
          FineNow(disk.fault, disk.calls);
        }
        status := disk.Remove(Temp);
        return false;
      }
    }
    assert entries[..|entries|] == entries;
    return true;
  }

  /** The operation takes effect, interrupted or not. */
  predicate TakesEffect(fault: Fault<Tree>) {
    fault.Fine? || InterruptedAfter(fault)
  }

  predicate InterruptedAfter(fault: Fault<Tree>) {
    fault.Interrupts? && fault.took
  }

  /** From operation c on, the handler gets the old tree back: it removes what is at the
      target, if there is anything, and renames the backup. */
  predicate Restores(fault: nat -> Fault<Tree>, c: nat, occupied: bool) {
    var r := if occupied then 1 else 0;
    Smooth(fault, c, r) && TakesEffect(fault(c + r))
  }

  lemma FineNow(fault: nat -> Fault<Tree>, c: nat)
    ensures FineFrom(fault, c) ==> fault(c).Fine?
  {
  }

  /** Where the old tree is after a swap that stopped at its operation k: back at the target,
      or else at its backup.  It is at its backup when an interrupt came right after it was
      moved there, which the handler does not know, or when the handler fails. */
  predicate BackInPlace(fault: nat -> Fault<Tree>, c: nat, k: nat) {
    if k < 3 then !(k == 2 && InterruptedAfter(fault(c + 2)))
    else Restores(fault, c + 4, InterruptedAfter(fault(c + 3)))
  }

  lemma StoppedAtTheRename(fault: nat -> Fault<Tree>, c: nat)
    ensures BackInPlace(fault, c, 3) <==> Restores(fault, c + 4, InterruptedAfter(fault(c + 3)))
  {
  }

  lemma {:induction false} FirstThree(fault: nat -> Fault<Tree>, c: nat)
    ensures Smooth(fault, c, 3) <==> fault(c).Fine? && fault(c + 1).Fine? && fault(c + 2).Fine?
    ensures !Smooth(fault, c, 3) ==>
      (BackInPlace(fault, c, Progress(fault, c, 3))
       <==> !(fault(c).Fine? && fault(c + 1).Fine? && InterruptedAfter(fault(c + 2))))
  {
    hide Restores;
    SmoothSplits(fault, c, 1, 2);
    SmoothSplits(fault, c + 1, 1, 1);
    hide Smooth;
  }

  /** Moves the old tree to the backup name; `moved` is the flag the handler looks at, which
      is not yet set when an interrupt comes right after the rename. */
  method MoveOldTree(disk: TreeDisk) returns (ok: bool, moved: bool)
    requires At(disk.files, Root).Some? && At(disk.files, Backup) == None
    modifies disk
    ensures At(disk.files, Temp) == At(old(disk.files), Temp)
    ensures ok == moved == Smooth(disk.fault, old(disk.calls), 3)
    ensures ok ==> At(disk.files, Root) == None && At(disk.files, Backup) == At(old(disk.files), Root)
    ensures ok ==> disk.calls == old(disk.calls) + 3
    ensures !ok ==> old(disk.calls) < disk.calls && !disk.fault(disk.calls - 1).Fine?
    ensures !ok ==>
      if BackInPlace(disk.fault, old(disk.calls), Progress(disk.fault, old(disk.calls), 3))
      then At(disk.files, Root) == At(old(disk.files), Root)
      else At(disk.files, Root) == None && At(disk.files, Backup) == At(old(disk.files), Root)
  {
    hide Smooth, Progress, BackInPlace;
    FirstThree(disk.fault, disk.calls);
    var status := disk.Write(Backup, map[]);
    if !status.Done? { return false, false; }
    status := disk.Remove(Backup);
    if !status.Done? { return false, false; }
    status := disk.Rename(Root, Backup);
    return status.Done?, status.Done?;
  }

  /** The handler of the swap: puts the old tree back if it was moved, and cleans up. */
  method UndoSwap(disk: TreeDisk, moved: bool)
    modifies disk
    ensures !moved ==>
      At(disk.files, Root) == At(old(disk.files), Root) && At(disk.files, Backup) == At(old(disk.files), Backup)
    ensures moved ==>
      At(disk.files, Backup) == At(old(disk.files), Backup) || At(disk.files, Root) == At(old(disk.files), Backup)
    ensures moved && Backup in old(disk.files) ==>
      if Restores(disk.fault, old(disk.calls), Root in old(disk.files))
      then At(disk.files, Root) == At(old(disk.files), Backup) && At(disk.files, Backup) == None
      else At(disk.files, Backup) == At(old(disk.files), Backup)
    ensures FineFrom(disk.fault, old(disk.calls)) ==> Temp !in disk.files
  {
    var status;
    if moved && Root in disk.files {
      status := disk.Remove(Root);
      if !status.Done? { return; }
    }
    if moved && Backup in disk.files {
      status := disk.Rename(Backup, Root);
      if !status.Done? { return; }
    }
    status := disk.Remove(Temp);
  }

  /** The rename into place is the first operation of a swap, or the fourth. */
  lemma {:induction false} TheRename(fault: nat -> Fault<Tree>, c: nat)
    ensures Smooth(fault, c, 1) <==> fault(c).Fine?
    ensures Smooth(fault, c, 4) <==> Smooth(fault, c, 3) && fault(c + 3).Fine?
    ensures !Smooth(fault, c, 3) ==> Progress(fault, c, 4) == Progress(fault, c, 3)
    ensures Smooth(fault, c, 3) && !fault(c + 3).Fine? ==> Progress(fault, c, 4) == 3
    ensures BackInPlace(fault, c, 3) <==> Restores(fault, c + 4, InterruptedAfter(fault(c + 3)))
  {
    SmoothSplits(fault, c, 1, 0);
    SmoothSplits(fault, c, 3, 1);
    SmoothSplits(fault, c + 3, 1, 0);
    ProgressJoins(fault, c, 3, 1);
    StoppedAtTheRename(fault, c);
    hide Smooth, Restores, BackInPlace;
  }

  lemma {:induction false} FineAfter(fault: nat -> Fault<Tree>, k: nat)
    requires !fault(k).Fine?
    ensures forall c :: OneFailureAfter(fault, c) ==> FineFrom(fault, k + 1)
  {
    hide OneFailureAfter, FineFrom;
    forall c | OneFailureAfter(fault, c) ensures FineFrom(fault, k + 1) { FineAfterTheFailure(fault, c, k); }
  }

  /** The swap: the old tree to its backup, the new one into place, and all of it undone when
      something fails. */
  method Swap(disk: TreeDisk) returns (ok: bool)
    requires At(disk.files, Temp).Some? && At(disk.files, Backup) == None
    modifies disk
    ensures var steps := (if Root in old(disk.files) then 3 else 0) + 1;
            && (ok <==> Smooth(disk.fault, old(disk.calls), steps))
            && (ok ==> disk.calls == old(disk.calls) + steps)
    ensures ok ==>
      && At(disk.files, Root) == At(old(disk.files), Temp) && At(disk.files, Temp) == None
      && At(disk.files, Backup) == At(old(disk.files), Root)
    ensures !ok && Root in old(disk.files) ==>
      if BackInPlace(disk.fault, old(disk.calls), Progress(disk.fault, old(disk.calls), 4))
      then At(disk.files, Root) == At(old(disk.files), Root)
      else At(disk.files, Backup) == At(old(disk.files), Root)
    ensures !ok && Root !in old(disk.files) ==>
      At(disk.files, Root) == if InterruptedAfter(disk.fault(old(disk.calls))) then At(old(disk.files), Temp) else None
    ensures forall c :: !ok && OneFailureAfter(disk.fault, c) ==> Temp !in disk.files
  {
    hide OneFailureAfter, FineFrom, Smooth, Progress, Restores, BackInPlace;
    TheRename(disk.fault, disk.calls);
    ok := true;
    var moved := false;
    if Root in disk.files {
      ok, moved := MoveOldTree(disk);
    }
    if ok {
      var status := disk.Rename(Temp, Root);
      ok := status.Done?;
    }
    if !ok {
      FineAfter(disk.fault, disk.calls - 1);
      UndoSwap(disk, moved);
    }
  }

  /** The number of disk operations up to and including the swap: the temporary directory,
      the entries, three for moving an old tree away, and the rename into place. */
  function SwapSteps(entries: seq<Entry>, hadRoot: bool): nat {
    1 + |entries| + (if hadRoot then 3 else 0) + 1
  }

  /** The old tree after a call that did not get through the swap, exactly: it is at the target,
      unless the swap was begun and not undone; then it is at its backup. */
  predicate LeftBehind(files: map<Place, Tree>, before: map<Place, Tree>, fault: nat -> Fault<Tree>, c: nat,
                       entries: seq<Entry>) {
    var written := |entries| + 1;
    var k := Progress(fault, c, written + 4);
    if k < written || BackInPlace(fault, c + written, k - written)
    then At(files, Root) == At(before, Root)
    else At(files, Backup) == At(before, Root)
  }

  lemma {:induction false} TwoParts(fault: nat -> Fault<Tree>, c: nat, m: nat, n: nat)
    ensures Smooth(fault, c, m + n) <==> Smooth(fault, c, m) && Smooth(fault, c + m, n)
    ensures n == 1 ==> (Smooth(fault, c, m + n - 1) <==> Smooth(fault, c, m))
    ensures Progress(fault, c, m + n)
            == if Progress(fault, c, m) == m then m + Progress(fault, c + m, n) else Progress(fault, c, m)
  {
    SmoothSplits(fault, c, m, n);
    ProgressJoins(fault, c, m, n);
  }

  /** Everything up to the swap. */
  method WriteAndSwap(disk: TreeDisk, entries: seq<Entry>) returns (ok: bool)
    requires Temp !in disk.files && Backup !in disk.files
    modifies disk
    ensures var swap := SwapSteps(entries, Root in old(disk.files));
            && (ok <==> Smooth(disk.fault, old(disk.calls), swap))
            && (ok ==> disk.calls == old(disk.calls) + swap)
            && (!ok && Root !in old(disk.files) ==>
                  At(disk.files, Root) ==
                    if Smooth(disk.fault, old(disk.calls), swap - 1)
                       && InterruptedAfter(disk.fault(old(disk.calls) + swap - 1))
                    then Some(TreeOf(entries)) else None)
    ensures ok ==>
      && At(disk.files, Root) == Some(TreeOf(entries)) && At(disk.files, Temp) == None
      && At(disk.files, Backup) == At(old(disk.files), Root)
    ensures !ok && Root in old(disk.files) ==>
      LeftBehind(disk.files, old(disk.files), disk.fault, old(disk.calls), entries)
    ensures !ok && OneFailureAfter(disk.fault, old(disk.calls)) ==> Temp !in disk.files
  {
    hide Smooth, Progress, TreeOf, BackInPlace, InterruptedAfter, OneFailureAfter;
    TwoParts(disk.fault, disk.calls, |entries| + 1, if Root in disk.files then 4 else 1);
    ok := WriteFiles(disk, entries);
    if ok {
      ok := Swap(disk);
    }
  }

  /** `materialize`, for every pattern of failures and interrupts.  It returns exactly when
      no paths collide and every operation works, and then exactly the new tree is there.
      It raises after a completed swap exactly when there was an old tree, everything up to
      the swap works and the removal of the backup does not; the new tree is then in place.
      In every other case the old tree is at hand, exactly as `LeftBehind` says; after a
      single failure it is always at the target.  Where there was none, there still is none,
      unless the swap itself was interrupted after its rename took effect. */
  method MaterializeAt(disk: TreeDisk, entries: seq<Entry>, key: string -> string) returns (result: Result)
    requires Temp !in disk.files && Backup !in disk.files
    modifies disk
    ensures Collide(entries, key) ==> result == Raised(false) && disk.files == old(disk.files)
    ensures var swap := SwapSteps(entries, Root in old(disk.files));
            && (result.Materialized? <==>
                  && !Collide(entries, key)
                  && Smooth(disk.fault, old(disk.calls), swap + if Root in old(disk.files) then 1 else 0))
            && (result == Raised(true) <==>
                  && !Collide(entries, key) && Root in old(disk.files)
                  && Smooth(disk.fault, old(disk.calls), swap) && !disk.fault(old(disk.calls) + swap).Fine?)
            && (result == Raised(false) && Root !in old(disk.files) ==>
                  At(disk.files, Root) ==
                    if !Collide(entries, key) && Smooth(disk.fault, old(disk.calls), swap - 1)
                       && InterruptedAfter(disk.fault(old(disk.calls) + swap - 1))
                    then Some(TreeOf(entries)) else None)
    ensures result.Materialized? ==> disk.files == map[Root := TreeOf(entries)]
    ensures result == Raised(true) ==> At(disk.files, Root) == Some(TreeOf(entries))
    ensures result == Raised(false) && Root in old(disk.files) ==>
      && OldTreeKept(disk.files, old(disk.files))
      && (!Collide(entries, key) ==>
            LeftBehind(disk.files, old(disk.files), disk.fault, old(disk.calls), entries))
    ensures result == Raised(false) ==>
      && (forall n :: OneFailure(disk.fault, n) ==> At(disk.files, Root) == At(old(disk.files), Root))
      && (OneFailureAfter(disk.fault, old(disk.calls)) ==> Temp !in disk.files)
  {
    hide Smooth, TreeOf, Collide, LeftBehind, InterruptedAfter, OneFailure, OneFailureAfter;
    ghost var c, swap := disk.calls, SwapSteps(entries, Root in disk.files);
    SmoothSplits(disk.fault, c, swap, 1);
    SmoothSplits(disk.fault, c + swap, 1, 0);
    var collides := HasCollision(entries, key);
    if collides { return Raised(false); }
    var hadRoot := Root in disk.files;
    var ok := WriteAndSwap(disk, entries);
    if !ok {
      if hadRoot {
        SafelyLeft(disk.files, old(disk.files), disk.fault, c, entries);
      } else {
        NoInterrupt(disk.fault, c + swap - 1);
      }
      return Raised(false);
    }
    if hadRoot && Backup in disk.files {
      var status := disk.Remove(Backup);
      if !status.Done? { return Raised(true); }
    }
    OnlyTheRoot(disk.files, TreeOf(entries));
    return Materialized;
  }

  /** Left at the target or at the backup; after a single failure, at the target. */
  lemma {:induction false} SafelyLeft(
      files: map<Place, Tree>, before: map<Place, Tree>, fault: nat -> Fault<Tree>, c: nat, entries: seq<Entry>)
    requires LeftBehind(files, before, fault, c, entries)
    requires !Smooth(fault, c, |entries| + 5)
    ensures OldTreeKept(files, before)
    ensures forall n: nat :: OneFailure(fault, n) ==> At(files, Root) == At(before, Root)
  {
    hide Smooth, Progress, BackInPlace;
    var written := |entries| + 1;
    var k := Progress(fault, c, written + 4);
    forall n: nat | OneFailure(fault, n) ensures k >= written ==> BackInPlace(fault, c + written, k - written) {
      if k >= written { OneFailureIsUndone(fault, c + written, k - written, n); }
    }
  }

  lemma NoInterrupt(fault: nat -> Fault<Tree>, k: nat)
    ensures forall n :: OneFailure(fault, n) ==> !InterruptedAfter(fault(k))
  {
  }

  /** After a single failure the handler works. */
  lemma OneFailureIsUndone(fault: nat -> Fault<Tree>, c: nat, k: nat, n: nat)
    requires OneFailure(fault, n) && !fault(c + k).Fine? && k <= 3
    ensures BackInPlace(fault, c, k)
  {
  }

  lemma {:induction false} OnlyTheRoot(files: map<Place, Tree>, tree: Tree)
    requires At(files, Root) == Some(tree) && At(files, Temp) == None && At(files, Backup) == None
    ensures files == map[Root := tree]
  {
    forall place ensures place in files <==> place == Root {
      match place
      case _ =>
    }
  }

  /** The guard around the removal of the backup does not hold: one file is written over an
      old tree, everything works except that last removal, and the call raises although the
      new tree is in place. */
  method BackupRemovalRaises() returns (result: Result, files: map<Place, Tree>)
    ensures result == Raised(true)
    ensures At(files, Root) == Some(map["main.py" := "new"])
  {
    var entries := [Entry("main.py", "new")];
    assert entries[..0] == [] && TreeOf(entries) == map["main.py" := "new"];
    var before: map<Place, Tree> := map[Root := map["main.py" := "old"]];
    var fault := (n: nat) => if n == 6 then Fails(Some(map["main.py" := "old"])) else Fine;
    var disk: TreeDisk := new Disk(fault, before);
    result := MaterializeAt(disk, entries, path => path);
    files := disk.files;
  }
}
