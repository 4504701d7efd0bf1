/** A directory whose operations may fail.  The fault function says how the n-th operation
    goes; it is arbitrary, so a property of a writer holds for every pattern of failures. */
module FaultyDisk {
  import opened Text

  /** How an operation goes.  It works; or it fails with an OSError; or the process is
      interrupted, before, in the middle of or right after it.  A write or a removal that
      does not work leaves anything at its path.  A rename is atomic: one that fails has no
      effect, and `took` says whether an interrupted one has. */
  datatype Fault<C> = Fine | Fails(left: Option<C>) | Interrupts(took: bool, left: Option<C>)
  {
    function Outcome(): Status {
      match this
      case Fine => Done
      case Fails(_) => OsError
      case Interrupts(_, _) => Interrupted
    }
  }

  datatype Status = Done | OsError | Interrupted

  function Put<P, C>(files: map<P, C>, path: P, content: Option<C>): map<P, C> {
    if content.Some? then files[path := content.value] else files - {path}
  }

  /** The n operations from number c on all work. */
  predicate Smooth<C>(fault: nat -> Fault<C>, c: nat, n: nat) {
    forall i :: c <= i < c + n ==> fault(i).Fine?
  }

  /** How many of the n operations from number c on work before the first that does not. */
  function Progress<C>(fault: nat -> Fault<C>, c: nat, n: nat): (k: nat)
    ensures k <= n && Smooth(fault, c, k) && (k < n ==> !fault(c + k).Fine?)
    ensures k == n <==> Smooth(fault, c, n)
    decreases n
  {
    if n == 0 || !fault(c).Fine? then 0 else 1 + Progress(fault, c + 1, n - 1)
  }

  /** n operations from number c on that stop at the first one that does not work: the number
      of the next operation and the status are these. */
  predicate Ran<C>(fault: nat -> Fault<C>, c: nat, n: nat, calls: nat, status: Status) {
    var k := Progress(fault, c, n);
    if k == n then status.Done? && calls == c + n
    else status == fault(c + k).Outcome() && calls == c + k + 1
  }

  /** Operations that run on after failures: only an interrupt cuts them off. */
  predicate RanOn<C>(fault: nat -> Fault<C>, c: nat, n: nat, calls: nat, cutOff: bool) {
    if cutOff then
      c < calls <= c + n && Uninterrupted(fault, c, calls - 1 - c) && fault(calls - 1).Interrupts?
    else calls == c + n && Uninterrupted(fault, c, n)
  }

  /** The operations from number c up to the next one, number `calls`: none is interrupted, or
      exactly the last one is, and that cuts them off. */
  predicate RanThrough<C>(fault: nat -> Fault<C>, c: nat, calls: nat, cutOff: bool) {
    if cutOff then c < calls && Uninterrupted(fault, c, calls - 1 - c) && fault(calls - 1).Interrupts?
    else c <= calls && Uninterrupted(fault, c, calls - c)
  }

  predicate Uninterrupted<C>(fault: nat -> Fault<C>, c: nat, n: nat) {
    forall i :: c <= i < c + n ==> !fault(i).Interrupts?
  }

  /** Operation number k fails and every other one works. */
  ghost predicate OneFailure<C>(fault: nat -> Fault<C>, k: nat) {
    fault(k).Fails? && forall n: nat :: n != k ==> fault(n).Fine?
  }

  /** Exactly one operation fails, and it comes after number c. */
  ghost predicate OneFailureAfter<C>(fault: nat -> Fault<C>, c: nat) {
    exists k :: k > c && OneFailure(fault, k)
  }

  /** Exactly one operation fails, and it is one of the n from number c on. */
  ghost predicate OneFailureIn<C>(fault: nat -> Fault<C>, c: nat, n: nat) {
    exists k :: c <= k < c + n && OneFailure(fault, k)
  }

  /** Two of the operations from number c up to `calls` fail. */
  ghost predicate TwoFailures<C>(fault: nat -> Fault<C>, c: nat, calls: nat) {
    exists m: nat, n: nat :: c <= m < n < calls && fault(m).Fails? && fault(n).Fails?
  }

  /** From number c on every operation works. */
  ghost predicate FineFrom<C>(fault: nat -> Fault<C>, c: nat) {
    forall n: nat :: n >= c ==> fault(n).Fine?
  }

  lemma FineAfterTheFailure<C>(fault: nat -> Fault<C>, c: nat, k: nat)
    requires OneFailureAfter(fault, c) && !fault(k).Fine?
    ensures k > c && FineFrom(fault, k + 1)
  {
  }

  lemma RanOnce<C>(fault: nat -> Fault<C>, c: nat)
    ensures Ran(fault, c, 1, c + 1, fault(c).Outcome())
    ensures Ran(fault, c, 0, c, Done)
  {
  }

  lemma RanMeans<C>(fault: nat -> Fault<C>, c: nat, n: nat, calls: nat, status: Status)
    requires Ran(fault, c, n, calls, status)
    ensures if status.Done? then calls == c + n else Progress(fault, c, n) < n
  {
  }

  /** Two stretches that run one after the other run as one. */
  lemma {:induction false} RanThen<C>(
      fault: nat -> Fault<C>, c: nat, m: nat, n: nat, middle: nat, first: Status, calls: nat, status: Status)
    requires Ran(fault, c, m, middle, first)
    requires if first.Done? then Ran(fault, middle, n, calls, status) else calls == middle && status == first
    ensures Ran(fault, c, m + n, calls, status)
    ensures Progress(fault, c, m + n)
            == if first.Done? then m + Progress(fault, middle, n) else Progress(fault, c, m)
  {
    hide Progress, Smooth;
    SmoothSplits(fault, c, m, n);
    ProgressJoins(fault, c, m, n);
  }

  lemma {:induction false} ProgressJoins<C>(fault: nat -> Fault<C>, c: nat, m: nat, n: nat)
    ensures Progress(fault, c, m + n)
            == if Progress(fault, c, m) == m then m + Progress(fault, c + m, n) else Progress(fault, c, m)
    decreases m
  {
    if m > 0 && fault(c).Fine? { ProgressJoins(fault, c + 1, m - 1, n); }
  }

  lemma RanOnThen<C>(
      fault: nat -> Fault<C>, c: nat, m: nat, n: nat, middle: nat, first: bool, calls: nat, cutOff: bool)
    requires RanOn(fault, c, m, middle, first)
    requires if first then calls == middle && cutOff else RanOn(fault, middle, n, calls, cutOff)
    ensures RanOn(fault, c, m + n, calls, cutOff)
  {
  }

  lemma ThroughRan<C>(fault: nat -> Fault<C>, c: nat, n: nat, calls: nat, status: Status)
    requires Ran(fault, c, n, calls, status)
    ensures RanThrough(fault, c, calls, status.Interrupted?)
  {
  }

  lemma ThroughRanOn<C>(fault: nat -> Fault<C>, c: nat, n: nat, calls: nat, cutOff: bool)
    requires RanOn(fault, c, n, calls, cutOff)
    ensures RanThrough(fault, c, calls, cutOff)
  {
  }

  lemma ThroughThen<C>(fault: nat -> Fault<C>, c: nat, middle: nat, calls: nat, cutOff: bool)
    requires RanThrough(fault, c, middle, false) && RanThrough(fault, middle, calls, cutOff)
    ensures RanThrough(fault, c, calls, cutOff)
  {
  }

  lemma RanOnNothing<C>(fault: nat -> Fault<C>, c: nat)
    ensures RanOn(fault, c, 0, c, false)
  {
  }

  /** Smooth stretches join. */
  lemma SmoothSplits<C>(fault: nat -> Fault<C>, c: nat, m: nat, n: nat)
    ensures Smooth(fault, c, m + n) <==> Smooth(fault, c, m) && Smooth(fault, c + m, n)
    ensures Smooth(fault, c, 0) && (Smooth(fault, c, 1) <==> fault(c).Fine?)
  {
  }

  class Disk<P(==), C> {
    const fault: nat -> Fault<C>
    var calls: nat
    var files: map<P, C>

    constructor (fault: nat -> Fault<C>, files: map<P, C>)
      ensures this.fault == fault && this.files == files && calls == 0
    {
      this.fault, this.files, calls := fault, files, 0;
    }

    /** Writes a file, or a whole tree in one go. */
    method Write(path: P, content: C) returns (status: Status)
      modifies this
      ensures calls == old(calls) + 1 && status == fault(old(calls)).Outcome()
      ensures status.Done? ==> files == old(files)[path := content]
      ensures !status.Done? ==> files == Put(old(files), path, fault(old(calls)).left)
    {
      var now := fault(calls);
      files := Put(files, path, if now.Fine? then Some(content) else now.left);
      status := now.Outcome();
      calls := calls + 1;
    }

    /** An atomic rename, over whatever is at the destination; fails when there is no source. */
    method Rename(source: P, target: P) returns (status: Status)
      requires source != target
      modifies this
      ensures calls == old(calls) + 1
      ensures status == if source in old(files) then fault(old(calls)).Outcome() else OsError
      ensures files == if source in old(files) && (status.Done? || (status.Interrupted? && fault(old(calls)).took))
                       then (old(files) - {source})[target := old(files)[source]]
                       else old(files)
    {
      var now := fault(calls);
      calls := calls + 1;
      if source !in files || now.Fails? { return OsError; }
      if now.Interrupts? && !now.took { return Interrupted; }
      files := (files - {source})[target := files[source]];
      return if now.Fine? then Done else Interrupted;
    }

    /** Removes a file or a tree; nothing happens when there is none. */
    method Remove(path: P) returns (status: Status)
      modifies this
      ensures path !in old(files) ==> status.Done? && files == old(files) && calls == old(calls)
      ensures path in old(files) ==> calls == old(calls) + 1 && status == fault(old(calls)).Outcome()
      ensures status.Done? ==> files == old(files) - {path}
      ensures !status.Done? ==> files == Put(old(files), path, fault(old(calls)).left)
    {
      if path !in files { return Done; }
      var now := fault(calls);
      files := Put(files, path, if now.Fine? then None else now.left);
      status := now.Outcome();
      calls := calls + 1;
    }
  }
}
