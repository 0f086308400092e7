/**
 Removing the partition that an install created. Three markers beside the creation
 receipt record how far a removal got; together they must keep the partition from
 being deleted twice and the receipt from being lost half-way.
 */
module PartitionReceipt {

  /** A receipt file; a receipt is the stable identity of one partition. */
  datatype File = Absent | Torn | Holds(receipt: nat)

  datatype Name = Creation | Removal | Deleted | Complete

  /**
   The receipt files, whether the partition exists, whether Windows got its space, how
   often the helper deleted the partition, and how often the partition came back while
   no deletion was recorded.
   */
  datatype Machine = Machine(
    creation: File, removal: File, deleted: File, complete: File,
    partition: bool, extended: bool, deletions: nat, comebacks: nat)

  function Get(m: Machine, n: Name): File {
    match n
    case Creation => m.creation
    case Removal => m.removal
    case Deleted => m.deleted
    case Complete => m.complete
  }

  function Put(m: Machine, n: Name, f: File): Machine {
    match n
    case Creation => m.(creation := f)
    case Removal => m.(removal := f)
    case Deleted => m.(deleted := f)
    case Complete => m.(complete := f)
  }

  // ---- what one step may do ------------------------------------------------------------

  /** Whether a marker for receipt r may be written now. */
  ghost predicate MayWrite(m: Machine, n: Name, r: nat) {
    match n
    case Creation => false
    case Removal => m.removal.Absent? && m.complete.Absent? && m.creation == Holds(r)
    case Deleted => m.deleted.Absent? && m.complete.Absent? && m.removal == Holds(r) && m.deletions > 0
    case Complete => m.complete.Absent? && m.deleted == Holds(r) && m.removal == Holds(r) && m.extended
  }

  /** Whether a receipt file may be removed now: completion is the last authority. */
  ghost predicate MayRemove(m: Machine, n: Name, r: nat) {
    match n
    case Removal => m.complete == Holds(r)
    case Deleted => m.complete == Holds(r) && m.removal.Absent?
    case Creation => m.complete == Holds(r) && m.removal.Absent? && m.deleted.Absent?
    case Complete => m.creation.Absent? && m.removal.Absent? && m.deleted.Absent?
  }

  ghost predicate Writes(m: Machine, next: Machine, n: Name, r: nat) {
    MayWrite(m, n, r) && (next == Put(m, n, Torn) || next == Put(m, n, Holds(r)))
  }

  ghost predicate Removes(m: Machine, next: Machine, n: Name, r: nat) {
    MayRemove(m, n, r) && next == Put(m, n, Absent)
  }

  /** The partition is deleted only under a durable marker for it, and only while no deletion is recorded. */
  ghost predicate DeletesPartition(m: Machine, next: Machine, r: nat) {
    && m.removal == Holds(r) && m.deleted.Absent? && m.complete.Absent? && m.partition
    && next == m.(partition := false, deletions := m.deletions + 1)
  }

  ghost predicate Extends(m: Machine, next: Machine, r: nat) {
    m.removal == Holds(r) && m.deleted == Holds(r) && !m.partition && next == m.(extended := true)
  }

  /** A deletion is on record, whole or torn, or the whole removal is. */
  ghost predicate Recorded(m: Machine) {
    !m.deleted.Absent? || !m.complete.Absent? || Finished(m)
  }

  /** Somebody else takes the partition away or brings one with its identity back. */
  ghost predicate Outside(m: Machine, next: Machine) {
    || next == m.(partition := false)
    || (!m.partition && next == m.(partition := true, comebacks := if Recorded(m) then m.comebacks else m.comebacks + 1))
  }

  ghost predicate Legal(m: Machine, next: Machine, r: nat) {
    || next == m
    || Outside(m, next)
    || DeletesPartition(m, next, r)
    || Extends(m, next, r)
    || (exists n :: Writes(m, next, n, r))
    || (exists n :: Removes(m, next, n, r))
  }

  // ---- what every step keeps -------------------------------------------------------------

  /** All files are gone, and not before the partition was deleted and its space given back. */
  ghost predicate Finished(m: Machine) {
    && m.creation.Absent? && m.removal.Absent? && m.deleted.Absent? && m.complete.Absent?
    && m.extended && m.deletions > 0
  }

  ghost predicate Of(f: File, r: nat) {
    f == Absent || f == Torn || f == Holds(r)
  }

  /**
   The receipt can be read from the creation or the completion file until all is done. A
   record of a deletion is true, and a deletion is covered by the removal marker until
   completion is recorded. The helper deletes once, and once more for every time the
   partition came back before its deletion was recorded.
   */
  ghost predicate Sound(m: Machine, r: nat) {
    && Of(m.removal, r) && Of(m.deleted, r) && Of(m.complete, r) && (m.creation == Absent || m.creation == Holds(r))
    && (m.creation == Holds(r) || m.complete == Holds(r) || Finished(m))
    && (m.removal.Torn? || m.deleted.Torn? ==> m.complete.Absent?)
    && (Recorded(m) ==> m.deletions > 0)
    && (m.deletions > 0 ==> m.removal == Holds(r) || m.complete == Holds(r) || Finished(m))
    && (m.complete.Torn? ==> m.deleted == Holds(r))
    && (!m.complete.Absent? ==> m.extended)
    && (m.creation.Absent? ==> m.removal.Absent? && m.deleted.Absent?)
    && m.deletions <= m.comebacks + (if m.partition && !Recorded(m) then 0 else 1)
  }

  ghost function Created(r: nat): Machine {
    Machine(Holds(r), Absent, Absent, Absent, true, false, 0, 0)
  }

  lemma LegalStepKeepsSound(m: Machine, next: Machine, r: nat)
    requires Sound(m, r) && Legal(m, next, r)
    ensures Sound(next, r)
  {
    if n :| Writes(m, next, n, r) {
      match n
      case Creation =>
      case Removal =>
      case Deleted =>
      case Complete =>
    } else if n :| Removes(m, next, n, r) {
      match n
      case Creation =>
      case Removal =>
      case Deleted =>
      case Complete =>
    }
  }

  /** Consecutive machines of a run, each a legal step from the one before. */
  ghost predicate LegalRun(run: seq<Machine>, from: nat, r: nat) {
    forall i, j :: from <= i && j == i + 1 && j < |run| ==> Legal(run[i], run[j], r)
  }

  /** Every power cut of every attempt leaves a sound machine. */
  lemma {:induction false} EveryRunIsSound(run: seq<Machine>, from: nat, at: nat, r: nat)
    requires from <= at < |run| && Sound(run[from], r) && LegalRun(run, from, r)
    ensures Sound(run[at], r)
    decreases at
  {
    if from < at {
      var before := at - 1;
      EveryRunIsSound(run, from, before, r);
      LegalStepKeepsSound(run[before], run[at], r);
    }
  }

  /** A recorded deletion stays recorded, and no step deletes under it. */
  lemma RecordedStepDeletesNothing(m: Machine, next: Machine, r: nat)
    requires Sound(m, r) && Recorded(m) && Legal(m, next, r)
    ensures Recorded(next) && next.deletions == m.deletions
  {
    if n :| Writes(m, next, n, r) {
      match n
      case Creation =>
      case Removal =>
      case Deleted =>
      case Complete =>
    }
  }

  /**
   Once a deletion is on record the helper never deletes again, whatever fails, wherever
   the power is cut, and even if the partition comes back.
   */
  lemma {:induction false} RecordedIsNeverDeletedAgain(run: seq<Machine>, from: nat, at: nat, r: nat)
    requires from <= at < |run| && Sound(run[from], r) && LegalRun(run, from, r) && Recorded(run[from])
    ensures Recorded(run[at]) && run[at].deletions == run[from].deletions
    decreases at
  {
    if from < at {
      var before := at - 1;
      RecordedIsNeverDeletedAgain(run, from, before, r);
      EveryRunIsSound(run, from, before, r);
      RecordedStepDeletesNothing(run[before], run[at], r);
    }
  }

  /**
   From the creation of the partition on: a record of a deletion is true, the receipt can
   be read until all is done, and the partition is deleted at most once unless it came
   back before its deletion was recorded.
   */
  lemma NeverDeletedTwice(run: seq<Machine>, at: nat, r: nat)
    requires at < |run| && run[0] == Created(r) && LegalRun(run, 0, r)
    ensures run[at].deletions <= 1 + run[at].comebacks
    ensures Recorded(run[at]) ==> run[at].deletions > 0
    ensures Finished(run[at]) || run[at].creation == Holds(r) || run[at].complete == Holds(r)
  {
    EveryRunIsSound(run, 0, at, r);
  }

  /** The bound is tight: a partition that comes back before its deletion is recorded is deleted again. */
  lemma UnrecordedMayBeDeletedAgain(r: nat)
    ensures exists run: seq<Machine> :: |run| == 5 && run[0] == Created(r) && LegalRun(run, 0, r) && run[4].deletions == 2
  {
    var m0 := Created(r);
    var m1 := m0.(removal := Holds(r));
    var m2 := m1.(partition := false, deletions := 1);
    var m3 := m2.(partition := true, comebacks := 1);
    var m4 := m3.(partition := false, deletions := 2);
    var run := [m0, m1, m2, m3, m4];
    assert Writes(m0, m1, Removal, r) && DeletesPartition(m1, m2, r) && Outside(m2, m3) && DeletesPartition(m3, m4, r);
    assert Legal(run[0], run[1], r) && Legal(run[1], run[2], r) && Legal(run[2], run[3], r) && Legal(run[3], run[4], r);
    assert LegalRun(run, 0, r);
  }

  // ---- when a later attempt can finish ------------------------------------------------------

  /**
   No marker in the way is torn, a partition that is gone is recorded as deleted, and one
   whose deletion is recorded has not come back.
   */
  ghost predicate Removable(m: Machine, r: nat) {
    if m.complete.Absent? then
      if m.partition then !m.removal.Torn? && m.deleted.Absent? else m.deleted == Holds(r)
    else m.complete == Holds(r) && !m.partition
  }

  /** What a removal that refuses has found: a torn marker, a partition gone without record, or one back despite it. */
  lemma StuckStates(m: Machine, r: nat)
    requires Sound(m, r) && !Finished(m)
    ensures !Removable(m, r) <==>
              || m.complete.Torn?
              || (m.removal.Torn? && m.partition) || m.deleted.Torn?
              || (!m.partition && !Recorded(m))
              || (m.partition && Recorded(m))
  {
  }

  /** Some legal run leads from the creation of the partition to this machine. */
  ghost predicate Reached(m: Machine, r: nat) {
    exists run: seq<Machine> :: run != [] && run[0] == Created(r) && LegalRun(run, 0, r) && run[|run| - 1] == m
  }

  lemma ReachedNext(m: Machine, next: Machine, r: nat)
    requires Reached(m, r) && Legal(m, next, r)
    ensures Reached(next, r)
  {
    var run: seq<Machine> :| run != [] && run[0] == Created(r) && LegalRun(run, 0, r) && run[|run| - 1] == m;
    var longer := run + [next];
    assert LegalRun(longer, 0, r);
    assert longer[0] == Created(r) && longer[|longer| - 1] == next;
  }

  /** Legal runs lead to every kind of stuck state: each marker torn, a deletion cut before its record, a comeback after it. */
  lemma StuckStatesAreReached(r: nat)
    ensures var marked := Created(r).(removal := Holds(r));
            var cut := marked.(partition := false, deletions := 1);
            var recorded := cut.(deleted := Holds(r));
            var stuck := {Created(r).(removal := Torn), cut, cut.(deleted := Torn), recorded.(partition := true),
                          recorded.(extended := true, complete := Torn)};
            forall m :: m in stuck ==> Reached(m, r) && !Removable(m, r)
  {
    var m0 := Created(r);
    assert LegalRun([m0], 0, r) && [m0][0] == m0;
    assert Reached(m0, r);
    Writing(m0, Removal, r);
    var m1 := m0.(removal := Holds(r));
    var m2 := m1.(partition := false, deletions := 1);
    assert DeletesPartition(m1, m2, r);
    ReachedNext(m1, m2, r);
    Writing(m2, Deleted, r);
    var m3 := m2.(deleted := Holds(r));
    assert Outside(m3, m3.(partition := true));
    ReachedNext(m3, m3.(partition := true), r);
    var m4 := m3.(extended := true);
    assert Extends(m3, m4, r);
    ReachedNext(m3, m4, r);
    Writing(m4, Complete, r);
  }

  lemma Writing(m: Machine, n: Name, r: nat)
    requires Reached(m, r) && MayWrite(m, n, r)
    ensures Reached(Put(m, n, Torn), r) && Reached(Put(m, n, Holds(r)), r)
  {
    assert Writes(m, Put(m, n, Torn), n, r) && Writes(m, Put(m, n, Holds(r)), n, r);
    ReachedNext(m, Put(m, n, Torn), r);
    ReachedNext(m, Put(m, n, Holds(r)), r);
  }

  // ---- the removal -----------------------------------------------------------------------------

  /** How writing a new marker ends on disk; only the last is a success. */
  datatype WriteResult = NothingWritten | PartlyWritten | WrittenUnconfirmed | Confirmed

  /** What the machine does with one operation. */
  datatype Fault = Fault(refuses: bool, write: WriteResult, works: bool, reports: bool)

  /**
   The other checks of an uninstall: the partition was located, it holds nothing but the
   installation, the rest of the installation was cleaned up, and the result verified.
   */
  datatype Checks = Checks(located: bool, assessed: bool, cleaned: bool, verified: bool)

  const ALL_PASS := Checks(true, true, true, true)

  datatype Read = Missing | Unusable | Got(receipt: nat)

  const OBEDIENT := Fault(false, Confirmed, true, true)

  class Uninstaller {
    var machine: Machine
    var clock: nat
    const faults: nat -> Fault
    ghost var history: seq<Machine>

    constructor (machine: Machine, faults: nat -> Fault)
      ensures Valid() && this.machine == machine && this.faults == faults && history == [machine]
    {
      this.machine, this.faults, clock, history := machine, faults, 0, [machine];
    }

    ghost predicate Valid()
      reads this
    {
      history != [] && history[|history| - 1] == machine
    }

    ghost predicate Obeys() {
      forall n: nat :: faults(n) == OBEDIENT
    }

    method Tick() returns (f: Fault)
      requires Valid()
      modifies this`clock
      ensures Valid() && f == faults(old(clock))
    {
      f := faults(clock);
      clock := clock + 1;
    }

    /** One change of the machine; power may fail right after it. */
    method Become(next: Machine, ghost from: nat, ghost r: nat)
      requires Valid() && from < |history| && LegalRun(history, from, r) && Legal(machine, next, r)
      modifies this`machine, this`history
      ensures Valid() && machine == next && old(history) <= history && LegalRun(history, from, r)
    {
      machine := next;
      history := history + [next];
    }

    method ReadReceipt(n: Name) returns (r: Read)
      requires Valid()
      modifies this`clock
      ensures Valid()
      ensures match r
              case Got(x) => Get(machine, n) == Holds(x)
              case Missing => Get(machine, n) == Absent
              case Unusable => !Obeys() || Get(machine, n) == Torn
      ensures faults(old(clock)).refuses ==> r == Unusable
    {
      var f := Tick();
      if f.refuses {
        return Unusable;
      }
      match Get(machine, n)
      case Absent => r := Missing;
      case Torn => r := Unusable;
      case Holds(x) => r := Got(x);
    }

    /** Create a marker that does not exist yet; a failure or a power cut may leave a torn one. */
    method PersistNew(n: Name, r: nat, ghost from: nat) returns (ok: bool)
      requires Valid() && from < |history| && LegalRun(history, from, r) && MayWrite(machine, n, r)
      modifies this`machine, this`clock, this`history
      ensures Valid() && old(history) <= history && LegalRun(history, from, r)
      ensures machine in {old(machine), Put(old(machine), n, Torn), Put(old(machine), n, Holds(r))}
      ensures ok ==> machine == Put(old(machine), n, Holds(r))
      ensures Obeys() ==> ok
    {
      var f := Tick();
      if f.write.PartlyWritten? {
        assert Writes(machine, Put(machine, n, Torn), n, r);
        Become(Put(machine, n, Torn), from, r);
      } else if !f.write.NothingWritten? {
        assert Writes(machine, Put(machine, n, Holds(r)), n, r);
        Become(Put(machine, n, Holds(r)), from, r);
      }
      ok := f.write.Confirmed?;
    }

    method RemoveReceipt(n: Name, r: nat, ghost from: nat) returns (ok: bool)
      requires Valid() && from < |history| && LegalRun(history, from, r) && MayRemove(machine, n, r)
      modifies this`machine, this`clock, this`history
      ensures Valid() && old(history) <= history && LegalRun(history, from, r)
      ensures machine == old(machine) || machine == Put(old(machine), n, Absent)
      ensures faults(old(clock)).refuses ==> !ok && machine == old(machine)
      ensures ok ==> machine == Put(old(machine), n, Absent)
      ensures Obeys() ==> ok
    {
      var f := Tick();
      if f.refuses {
        return false;
      }
      assert Removes(machine, Put(machine, n, Absent), n, r);
      Become(Put(machine, n, Absent), from, r);
      ok := true;
    }

    /** Completion is written first and removed last. */
    method FinalizeRemoval(r: nat, ghost from: nat) returns (ok: bool)
      requires Valid() && from < |history| && LegalRun(history, from, r)
      requires machine.complete.Absent? ==> machine.extended && machine.removal == Holds(r)
      modifies this`machine, this`clock, this`history
      ensures Valid() && old(history) <= history && LegalRun(history, from, r)
      ensures ok ==> machine == old(machine).(creation := Absent, removal := Absent, deleted := Absent, complete := Absent)
      ensures Obeys() ==> (ok <==> old(machine).complete == Holds(r)
                                   || (old(machine).complete.Absent? && old(machine).deleted == Holds(r)))
    {
      var complete := ReadReceipt(Complete);
      if complete.Missing? {
        var deleted := ReadReceipt(Deleted);
        if deleted != Got(r) {
          return false;
        }
        ok := PersistNew(Complete, r, from);
        if !ok {
          return;
        }
      } else if complete != Got(r) {
        return false;
      }
      ok := RemoveReceipt(Removal, r, from);
      if !ok {
        return;
      }
      ok := RemoveReceipt(Deleted, r, from);
      if !ok {
        return;
      }
      ok := RemoveReceipt(Creation, r, from);
      if !ok {
        return;
      }
      ok := RemoveReceipt(Complete, r, from);
    }

    /** The helper deletes the partition; a report means it was seen to disappear. */
    method DeletePartition(r: nat, ghost from: nat) returns (ok: bool)
      requires Valid() && from < |history| && LegalRun(history, from, r)
      requires machine.removal == Holds(r) && machine.deleted.Absent? && machine.complete.Absent? && machine.partition
      modifies this`machine, this`clock, this`history
      ensures Valid() && old(history) <= history && LegalRun(history, from, r)
      ensures machine == old(machine) || DeletesPartition(old(machine), machine, r)
      ensures ok ==> DeletesPartition(old(machine), machine, r)
      ensures Obeys() ==> ok
    {
      var f := Tick();
      if f.works {
        Become(machine.(partition := false, deletions := machine.deletions + 1), from, r);
      }
      ok := f.works && f.reports;
    }

    /** Delete once, record it, then give the space back to Windows. */
    method RemovePartitionAndExtend(r: nat, ghost from: nat) returns (ok: bool)
      requires Valid() && from < |history| && LegalRun(history, from, r)
      requires machine.complete.Absent? && (machine.deleted.Absent? ==> machine.partition)
      modifies this`machine, this`clock, this`history
      ensures Valid() && old(history) <= history && LegalRun(history, from, r)
      ensures ok ==> old(machine).removal == Holds(r)
                     && machine == if old(machine).deleted.Absent?
                                   then old(machine).(deleted := Holds(r), extended := true, partition := false, deletions := old(machine).deletions + 1)
                                   else old(machine).(extended := true)
      ensures ok ==> machine.deleted == Holds(r) && !machine.partition
      ensures machine.creation == old(machine).creation && machine.removal == old(machine).removal && machine.complete == old(machine).complete
      ensures old(machine).removal != Holds(r) || (!old(machine).deleted.Absent? && old(machine).partition) ==>
                !ok && machine == old(machine)
      ensures Obeys() ==> (ok <==> old(machine).removal == Holds(r) &&
                                   (old(machine).deleted.Absent? || (old(machine).deleted == Holds(r) && !old(machine).partition)))
    {
      var removal := ReadReceipt(Removal);
      if removal != Got(r) {
        return false;
      }
      var deleted := ReadReceipt(Deleted);
      if deleted.Missing? {
        ok := DeletePartition(r, from);
        if !ok {
          return;
        }
        ok := PersistNew(Deleted, r, from);
        if !ok {
          return;
        }
      } else if deleted != Got(r) {
        return false;
      }
      ok := ExtendWindows(r, from);
    }

    /** The helper gives the space back to Windows; it refuses while the partition is there. */
    method ExtendWindows(r: nat, ghost from: nat) returns (ok: bool)
      requires Valid() && from < |history| && LegalRun(history, from, r)
      requires machine.removal == Holds(r) && machine.deleted == Holds(r)
      modifies this`machine, this`clock, this`history
      ensures Valid() && old(history) <= history && LegalRun(history, from, r)
      ensures machine == old(machine) || machine == old(machine).(extended := true)
      ensures ok ==> machine.extended && !machine.partition
      ensures old(machine).partition ==> machine == old(machine)
      ensures Obeys() ==> (ok <==> !old(machine).partition)
    {
      var f := Tick();
      if machine.partition {
        return false;
      }
      if f.works {
        Become(machine.(extended := true), from, r);
      }
      ok := f.works && f.reports;
    }

    /** Record the explicit wish to remove; an existing marker must be for the same partition. */
    method MarkRemoval(r: nat, ghost from: nat) returns (ok: bool)
      requires Valid() && from < |history| && LegalRun(history, from, r) && machine.complete.Absent? && machine.creation == Holds(r)
      modifies this`machine, this`clock, this`history
      ensures Valid() && old(history) <= history && LegalRun(history, from, r)
      ensures machine == old(machine).(removal := machine.removal)
      ensures faults(old(clock)).refuses ==> !ok && machine == old(machine)
      ensures !old(machine).removal.Absent? ==> machine == old(machine)
      ensures ok ==> machine.removal == Holds(r)
      ensures Obeys() ==> (ok <==> old(machine).removal.Absent? || old(machine).removal == Holds(r))
    {
      var f := Tick();
      if f.refuses {
        return false;
      }
      if machine.removal.Absent? {
        ok := PersistNew(Removal, r, from);
      } else {
        var marker := ReadReceipt(Removal);
        ok := marker == Got(r);
      }
    }

    /** The receipt to act on: the creation receipt, or once that is gone the completion. */
    method ReadStorageReceipt() returns (r: Read)
      requires Valid()
      modifies this`clock
      ensures Valid()
      ensures r.Got? ==> machine.creation == Holds(r.receipt) || (machine.creation.Absent? && machine.complete == Holds(r.receipt))
      ensures Obeys() && (machine.creation.Holds? || (machine.creation.Absent? && machine.complete.Holds?)) ==> r.Got?
    {
      r := ReadReceipt(Creation);
      if r.Missing? {
        r := ReadReceipt(Complete);
      }
    }

    /**
     The partition branches of an uninstall. Whatever happens, every change is a legal
     step for the receipt that was read. An unfinished removal that is not removable is
     refused and nothing is changed, whatever the faults; on a machine that obeys, one
     that is removable is finished.
     */
    method Uninstall(checks: Checks) returns (ok: bool, ghost receipt: Read)
      requires Valid()
      modifies this`machine, this`clock, this`history
      ensures Valid() && old(history) <= history
      ensures !receipt.Got? || !checks.located ==> !ok && history == old(history)
      ensures old(machine).partition && !checks.assessed ==> !ok && machine == old(machine)
      ensures old(machine).partition && !checks.cleaned ==> !ok && machine == old(machine).(removal := machine.removal)
      ensures old(machine).partition && !checks.verified ==> !ok && machine.creation == old(machine).creation
      ensures receipt.Got? ==> LegalRun(history, |old(history)| - 1, receipt.receipt)
      ensures forall r :: Sound(old(machine), r) && !Finished(old(machine)) && Obeys() && checks == ALL_PASS ==>
                (ok <==> Removable(old(machine), r))
      ensures forall r :: Sound(old(machine), r) && !Finished(old(machine)) && ok ==> Finished(machine) && !machine.partition
      ensures forall r :: Sound(old(machine), r) && !Finished(old(machine)) && !Removable(old(machine), r) ==>
                !ok && machine == old(machine)
    {
      ghost var from: nat := |history| - 1;
      var read := ReadStorageReceipt();
      receipt := read;
      if !read.Got? {
        return false, receipt;
      }
      var r := read.receipt;
      if !checks.located {
        return false, receipt;
      }
      var present := machine.partition;
      var complete := ReadReceipt(Complete);
      if complete == Got(r) {
        if present {
          return false, receipt;
        }
        ok := FinalizeRemoval(r, from);
        return;
      }
      if !complete.Missing? {
        return false, receipt;
      }
      if !present {
        var deleted := ReadReceipt(Deleted);
        if deleted != Got(r) {
          return false, receipt;
        }
        ok := RemovePartitionAndExtend(r, from);
        if ok {
          ok := FinalizeRemoval(r, from);
        }
        return;
      }
      ok := RemovePresent(r, checks, from);
    }

    /** The partition is there: mark it for removal, delete it, and finish once the result is verified. */
    method RemovePresent(r: nat, checks: Checks, ghost from: nat) returns (ok: bool)
      requires Valid() && from < |history| && LegalRun(history, from, r)
      requires machine.partition && machine.complete.Absent? && machine.creation == Holds(r)
      modifies this`machine, this`clock, this`history
      ensures Valid() && old(history) <= history && LegalRun(history, from, r)
      ensures !checks.assessed ==> !ok && machine == old(machine)
      ensures !checks.cleaned ==> !ok && machine == old(machine).(removal := machine.removal)
      ensures !checks.verified ==> !ok && machine.creation == old(machine).creation
      ensures old(machine).removal.Torn? || !old(machine).deleted.Absent? ==>
                !ok && machine == old(machine).(removal := machine.removal)
                && (!old(machine).removal.Absent? ==> machine == old(machine))
      ensures ok ==> Finished(machine) && !machine.partition
      ensures Obeys() && checks == ALL_PASS ==>
                (ok <==> old(machine).deleted.Absent? && (old(machine).removal.Absent? || old(machine).removal == Holds(r)))
    {
      if !checks.assessed {
        return false;
      }
      ok := MarkRemoval(r, from);
      if !ok || !checks.cleaned {
        return false;
      }
      ok := RemovePartitionAndExtend(r, from);
      if !ok || !checks.verified {
        return false;
      }
      ok := FinalizeRemoval(r, from);
    }
  }
}
