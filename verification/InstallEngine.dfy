/**
 Running the install steps in order, with the journal that survives a power cut and
 the promise that an install that does not finish does not change the next boot.
 */
module InstallEngine {
  import opened Text
  import opened InstallRecovery

  /** Deliberate failures for exercising the exits. */
  datatype Inject = NoFault | AtRootDisk | AtImage | AtEspStaging | AtBcdArming | BeforeReboot

  predicate Hits(inject: Inject, s: Step) {
    match inject
    case AtRootDisk => s == MakeRoom
    case AtImage => s == DownloadLinux || s == DownloadSystem
    case AtEspStaging => s == PrepareLinux
    case AtBcdArming => s == MakeBootable
    case _ => false
  }

  /** A step that has been made to fail on purpose. */
  ghost predicate Injected(inject: Inject, s: Step) {
    || (inject == AtRootDisk && s == MakeRoom)
    || (inject == AtImage && s in {DownloadLinux, DownloadSystem})
    || (inject == AtEspStaging && s == PrepareLinux)
    || (inject == AtBcdArming && s == MakeBootable)
  }

  /** What happens at one tick of the run. */
  datatype Fault = Fault(
    cancelled: bool,   // the user has cancelled by now
    fails: bool,       // a step function returns an error
    lands: bool,       // a journal write reaches the disk
    arms: bool,        // a step function arms the one-shot boot entry
    disarms: bool)     // disarming works

  /** What a power cut would leave: the journal on disk, the steps that have begun, and the records of this attempt that landed. */
  datatype Instant = Instant(disk: Option<Journal>, begun: seq<Step>, landed: seq<Journal>)

  ghost predicate Began(begun: seq<Step>) {
    PrepareLinux in begun || MakeBootable in begun
  }

  /** Some record that landed names a boot-chain step. */
  ghost predicate Recorded(landed: seq<Journal>) {
    exists j :: j in landed && NamesBootChain(j)
  }

  /** The finished steps are the first of the list, and the running one is next. */
  ghost predicate Follows(j: Journal, steps: seq<Step>) {
    && j.completed <= steps
    && (j.current.Some? ==> |j.completed| < |steps| && j.current.value == steps[|j.completed|])
  }

  /**
   The disk holds the last record that landed, or what it held before; every record
   follows the steps, and none forgets a boot-chain step that an earlier one named. If
   every write lands, such a step is named as soon as it begins.
   */
  ghost predicate Safe(i: Instant, steps: seq<Step>, before: Option<Journal>, allLand: bool) {
    && i.disk == (if i.landed == [] then before else Some(i.landed[|i.landed| - 1]))
    && (forall j :: j in i.landed ==> Follows(j, steps))
    && (Recorded(i.landed) ==> NamesBootChain(i.landed[|i.landed| - 1]))
    && (allLand && Began(i.begun) ==> Recorded(i.landed))
  }

  /** What is on disk is the journal of an earlier attempt, or a prefix of the steps plus the running one. */
  lemma DiskFollowsSteps(i: Instant, steps: seq<Step>, before: Option<Journal>, allLand: bool)
    requires Safe(i, steps, before, allLand)
    ensures i.disk == before || (i.disk.Some? && Follows(i.disk.value, steps))
  {
    if i.landed != [] {
      assert i.landed[|i.landed| - 1] in i.landed;
    }
  }

  /** With journal writes landing, a power cut after a boot-chain step began is never offered as resumable. */
  lemma CrashIsNeverResumed(i: Instant, steps: seq<Step>, before: Option<Journal>, o: Observation)
    requires Safe(i, steps, before, true) && Began(i.begun) && o.journal == i.disk
    ensures !Classify(o).resume && !Classify(o).discards
  {
    TouchedIsNeverResumed(o);
  }

  /**
   However the writes fare, and whatever else is found once the installer is gone and no
   deployer has started: an attempt that left a journal is offered as resumable exactly
   when not one of its records that landed names a boot-chain step, and root.disk is
   either absent or provably its own.
   */
  lemma CrashIsResumedIff(i: Instant, steps: seq<Step>, before: Option<Journal>, allLand: bool, o: Observation)
    requires Safe(i, steps, before, allLand) && (before.Some? ==> !NamesBootChain(before.value))
    requires o.journal == i.disk && i.disk.Some? && i.disk.value.outcome in {Running, Cancelled, Failed}
    requires !o.ownerAlive && !DeployerReached(o)
    ensures Classify(o).resume <==> !Recorded(i.landed) && (o.rootDisk ==> ProvablyOwn(o))
  {
    ResumeOfferedIff(o);
    if i.landed != [] {
      assert i.landed[|i.landed| - 1] in i.landed;
    }
  }

  /**
   Journal writes are best effort, so the journal need not name a boot-chain step that
   has begun: here only the record of the start landed, and resuming is offered.
   */
  lemma UnrecordedStepIsResumed(startedAt: int)
    ensures var start := Journal(Running, None, [], Some(startedAt));
            var cut := Instant(Some(start), [PrepareLinux], [start]);
            var found := Observation(cut.disk, false, None, false, false, false, false, None);
            Safe(cut, [PrepareLinux], None, false) && Began(cut.begun) && Classify(found).resume
  {
    var start := Journal(Running, None, [], Some(startedAt));
    var found := Observation(Some(start), false, None, false, false, false, false, None);
    assert !NamesBootChain(start);
    assert Classify(found) == ClassifyJournal(found, start);
  }

  /** Nor is every clean stop resumable: a root.disk that may be older than the attempt stays where it is. */
  lemma ForeignRootDiskIsNotResumed(startedAt: int, made: int)
    requires made < startedAt - SLACK
    ensures var j := Journal(Running, Some(DownloadLinux), [MakeRoom], Some(startedAt));
            var found := Observation(Some(j), false, None, false, false, false, true, Some(made));
            !NamesBootChain(j) && !Classify(found).resume && Classify(found).advice == Remove
  {
    var j := Journal(Running, Some(DownloadLinux), [MakeRoom], Some(startedAt));
    var found := Observation(Some(j), false, None, false, false, false, true, Some(made));
    assert !PartialRootDiskOwned(found) && !NamesBootChain(j);
    assert Classify(found) == ClassifyJournal(found, j);
  }

  class Engine {
    const steps: seq<Step>
    const inject: Inject
    const faults: nat -> Fault
    var clock: nat
    var journal: Journal
    var disk: Option<Journal>
    var state: Option<Lifecycle>
    var oneShot: bool
    var disarmCalls: nat
    ghost var begun: seq<Step>
    ghost var landed: seq<Journal>
    ghost var history: seq<Instant>
    ghost const before: Option<Journal>

    constructor (steps: seq<Step>, inject: Inject, faults: nat -> Fault, disk: Option<Journal>, state: Option<Lifecycle>)
      ensures Valid() && this.steps == steps && this.inject == inject && this.faults == faults
      ensures this.disk == disk && this.state == state && disarmCalls == 0 && !oneShot && begun == [] && landed == []
      ensures before == disk
    {
      this.steps, this.inject, this.faults, this.disk, this.state := steps, inject, faults, disk, state;
      clock, disarmCalls, oneShot, begun, landed := 0, 0, false, [], [];
      journal := Journal(Running, None, [], None);
      history := [Instant(disk, [], [])];
      before := disk;
    }

    ghost predicate AllLand() {
      forall n: nat :: faults(n).lands
    }

    ghost predicate AllDisarm() {
      forall n: nat :: faults(n).disarms
    }

    ghost predicate Valid()
      reads this
    {
      && Follows(journal, steps)
      && (begun == journal.completed || (journal.current.Some? && begun == journal.completed + [journal.current.value]))
      && Safe(Instant(disk, begun, landed), steps, before, AllLand())
      && (Recorded(landed) ==> NamesBootChain(journal))
      && (AllLand() && NamesBootChain(journal) ==> Recorded(landed))
      && (oneShot ==> MakeBootable in begun)
      && forall i :: i in history ==> Safe(i, steps, before, AllLand())
    }

    method Tick() returns (f: Fault)
      requires Valid()
      modifies this`clock
      ensures Valid() && clock == old(clock) + 1 && f == faults(old(clock))
    {
      f := faults(clock);
      clock := clock + 1;
    }

    /** Write the journal: the new one lands as a whole, or the old one is still there. */
    method Flush(j: Journal)
      requires Valid() && Follows(j, steps) && (Recorded(landed) ==> NamesBootChain(j))
      requires begun == j.completed || (j.current.Some? && begun == j.completed + [j.current.value])
      modifies this`clock, this`journal, this`disk, this`landed, this`history
      ensures Valid() && journal == j
      ensures if faults(old(clock)).lands then disk == Some(j) && landed == old(landed) + [j]
              else disk == old(disk) && landed == old(landed)
      ensures history == old(history) + [Instant(disk, begun, landed)]
      ensures AllLand() ==> disk == Some(j)
      ensures clock == old(clock) + 1
    {
      var f := Tick();
      journal := j;
      if f.lands {
        disk := Some(j);
        landed := landed + [j];
      }
      history := history + [Instant(disk, begun, landed)];
    }

    method StepStarted(s: Step)
      requires Valid() && journal.current == None && begun == journal.completed && |begun| < |steps| && s == steps[|begun|]
      modifies this`clock, this`journal, this`disk, this`landed, this`history
      ensures Valid() && journal == old(journal).(current := Some(s)) && old(history) <= history && clock == old(clock) + 1
      ensures AllLand() ==> disk == Some(journal)
    {
      Flush(journal.(current := Some(s)));
    }

    method StepDone(s: Step)
      requires Valid() && journal.current == Some(s) && begun == journal.completed + [s]
      modifies this`clock, this`journal, this`disk, this`landed, this`history
      ensures Valid() && journal == old(journal).(completed := begun, current := None) && old(history) <= history
      ensures clock == old(clock) + 1
      ensures AllLand() ==> disk == Some(journal)
    {
      Flush(journal.(completed := journal.completed + [s], current := None));
    }

    method DisarmOneShot()
      requires Valid()
      modifies this`clock, this`oneShot, this`disarmCalls
      ensures Valid() && disarmCalls == old(disarmCalls) + 1 && oneShot == (old(oneShot) && !faults(old(clock)).disarms)
      ensures AllDisarm() ==> !oneShot
    {
      var f := Tick();
      if f.disarms {
        oneShot := false;
      }
      disarmCalls := disarmCalls + 1;
    }

    /** A step function, once begun, may change anything, arm the one-shot from the bootable step on, and fail. */
    method Execute(s: Step) returns (ok: bool)
      requires Valid() && journal.current == Some(s) && begun == journal.completed
      modifies this`clock, this`oneShot, this`begun, this`history
      ensures Valid() && begun == journal.completed + [s] && history == old(history) + [Instant(disk, begun, landed)]
      ensures oneShot == (old(oneShot) || (faults(old(clock)).arms && MakeBootable in begun))
      ensures clock == old(clock) + 1 && ok == !faults(old(clock)).fails
    {
      var f := Tick();
      begun := begun + [s];
      history := history + [Instant(disk, begun, landed)];
      if f.arms && MakeBootable in journal.completed + [s] {
        oneShot := true;
      }
      ok := !f.fails;
    }

    /** Leave without finishing: disarm if the bootable step has begun, then record how it ended. */
    method Leave(armed: bool, how: Lifecycle, outcome: Outcome)
      requires Valid() && armed == (MakeBootable in begun)
      modifies this`clock, this`journal, this`disk, this`landed, this`history, this`state, this`oneShot, this`disarmCalls
      ensures Valid() && old(history) <= history && state == Some(how)
      ensures journal == old(journal).(outcome := outcome) && (AllLand() ==> disk == Some(journal))
      ensures disarmCalls == old(disarmCalls) + (if MakeBootable in begun then 1 else 0)
      ensures AllDisarm() ==> !oneShot
    {
      if armed {
        DisarmOneShot();
      }
      state := Some(how);
      Flush(journal.(outcome := outcome));
    }

    /** The next step, from its start record to its end; on failure the run is over. */
    method OneStep(s: Step, armed: bool) returns (ok: bool, armedNow: bool)
      requires Valid() && journal.outcome == Running && journal.current == None && begun == journal.completed
      requires |begun| < |steps| && s == steps[|begun|] && armed == (MakeBootable in begun)
      modifies this`clock, this`journal, this`disk, this`landed, this`history, this`state, this`oneShot, this`disarmCalls, this`begun
      ensures Valid() && old(history) <= history
      ensures ok <==> !Injected(inject, s) && !faults(old(clock) + 1).fails
      ensures ok ==> clock == old(clock) + 3
      ensures ok ==> journal.outcome == Running && journal.current == None
                     && begun == journal.completed == old(begun) + [s] && armedNow == (MakeBootable in begun)
      ensures disarmCalls == old(disarmCalls) + (if !ok && MakeBootable in begun then 1 else 0)
      ensures AllLand() ==> disk == Some(journal)
      ensures !ok ==> state == Some(FailedState) && journal.outcome == Failed && journal.current == Some(s) && (AllDisarm() ==> !oneShot)
    {
      armedNow := armed;
      StepStarted(s);
      if Hits(inject, s) {
        Leave(armedNow, FailedState, Failed);
        return false, armedNow;
      }
      if s == MakeBootable {
        armedNow := true;
      }
      ok := Perform(s, armedNow);
    }

    /** The step function, and the record of its end. */
    method Perform(s: Step, armed: bool) returns (ok: bool)
      requires Valid() && journal.outcome == Running && journal.current == Some(s) && begun == journal.completed
      requires armed == (MakeBootable in begun + [s])
      modifies this`clock, this`journal, this`disk, this`landed, this`history, this`state, this`oneShot, this`disarmCalls, this`begun
      ensures Valid() && old(history) <= history && begun == old(begun) + [s]
      ensures ok <==> !faults(old(clock)).fails
      ensures ok ==> clock == old(clock) + 2 && journal.outcome == Running && journal.current == None && begun == journal.completed
      ensures disarmCalls == old(disarmCalls) + (if !ok && MakeBootable in begun then 1 else 0)
      ensures AllLand() ==> disk == Some(journal)
      ensures !ok ==> state == Some(FailedState) && journal.outcome == Failed && journal.current == Some(s) && (AllDisarm() ==> !oneShot)
    {
      ok := Execute(s);
      if ok {
        StepDone(s);
      } else {
        Leave(armed, FailedState, Failed);
      }
    }

    /** After the last step: a cancellation that came in late still counts. */
    method Finish(armed: bool) returns (ok: bool)
      requires Valid() && journal.outcome == Running && journal.current == None && begun == steps && armed == (MakeBootable in begun)
      modifies this`clock, this`journal, this`disk, this`landed, this`history, this`state, this`oneShot, this`disarmCalls
      ensures Valid() && old(history) <= history
      ensures ok <==> inject != BeforeReboot && !faults(old(clock)).cancelled
      ensures disarmCalls == old(disarmCalls) + (if !ok && MakeBootable in begun then 1 else 0)
      ensures AllLand() ==> disk == Some(journal)
      ensures ok ==> state == Some(ArmedState) && journal == old(journal).(outcome := Armed) && oneShot == old(oneShot)
      ensures !ok ==> state == Some(Staged(true)) && journal.outcome == Cancelled && (AllDisarm() ==> !oneShot)
    {
      if inject == BeforeReboot {
        Leave(armed, Staged(true), Cancelled);
        return false;
      }
      var f := Tick();
      if f.cancelled {
        Leave(armed, Staged(true), Cancelled);
        return false;
      }
      state := Some(ArmedState);
      Flush(journal.(outcome := Armed));
      ok := true;
    }

    /** The tick of the look for a cancellation before step k; the last one comes after all steps. */
    function LookAt(start: nat, k: nat): nat {
      start + 1 + 4 * k
    }

    /** Look k of a run that starts at this tick finds no cancellation. */
    ghost predicate Quiet(start: nat, k: nat) {
      !faults(LookAt(start, k)).cancelled
    }

    /** Step k does not fail, by itself or on purpose. */
    ghost predicate StepWorks(start: nat, k: nat)
      requires k < |steps|
    {
      !Injected(inject, steps[k]) && !faults(LookAt(start, k) + 2).fails
    }

    ghost predicate Uncancelled(start: nat, k: nat) {
      forall i :: 0 <= i < k ==> Quiet(start, i)
    }

    ghost predicate StepsWork(start: nat, k: nat)
      requires k <= |steps|
    {
      forall i :: 0 <= i < k ==> StepWorks(start, i)
    }

    /** One round: look for a cancellation, then take the step. */
    method LookAndStep(s: Step, armed: bool, ghost start: nat, ghost k: nat) returns (ok: bool, armedNow: bool)
      requires clock == LookAt(start, k) && k == |begun|
      requires Valid() && journal.outcome == Running && journal.current == None && begun == journal.completed
      requires |begun| < |steps| && s == steps[|begun|] && armed == (MakeBootable in begun)
      modifies this`clock, this`journal, this`disk, this`landed, this`history, this`state, this`oneShot, this`disarmCalls, this`begun
      ensures Valid() && old(history) <= history
      ensures ok <==> Quiet(start, k) && StepWorks(start, k)
      ensures ok ==> clock == LookAt(start, k + 1) && journal.outcome == Running && journal.current == None
                     && begun == journal.completed == old(begun) + [s] && armedNow == (MakeBootable in begun)
      ensures disarmCalls == old(disarmCalls) + (if !ok && MakeBootable in begun then 1 else 0)
      ensures AllLand() && !ok ==> disk == Some(journal)
      ensures !ok ==> Stopped(!Quiet(start, k))
    {
      var f := Tick();
      if f.cancelled {
        Leave(armed, Staged(true), Cancelled);
        return false, armed;
      }
      ok, armedNow := OneStep(s, armed);
    }

    /** The run is over, by a cancellation or by a failure, and the one-shot is off. */
    ghost predicate Stopped(cancelled: bool)
      reads this
    {
      && (AllDisarm() ==> !oneShot)
      && (if cancelled then journal.outcome == Cancelled && state == Some(Staged(true))
          else journal.outcome == Failed && state == Some(FailedState) && journal.current.Some?)
    }

    /** All steps in order; it goes through exactly when nothing is cancelled before one and none fails. */
    method RunSteps(ghost start: nat) returns (ok: bool, armed: bool)
      requires Valid() && journal.outcome == Running && journal.current == None && begun == journal.completed == []
      requires clock == start + 1
      modifies this`clock, this`journal, this`disk, this`landed, this`history, this`state, this`oneShot, this`disarmCalls, this`begun
      ensures Valid() && old(history) <= history
      ensures ok <==> Uncancelled(start, |steps|) && StepsWork(start, |steps|)
      ensures ok ==> clock == LookAt(start, |steps|) && journal.outcome == Running && journal.current == None
                     && begun == journal.completed == steps && armed == (MakeBootable in begun)
      ensures disarmCalls == old(disarmCalls) + (if !ok && MakeBootable in begun then 1 else 0)
      ensures AllLand() && !ok ==> disk == Some(journal)
      ensures !ok ==> (Stopped(true) && !Uncancelled(start, |steps|)) || (Stopped(false) && !StepsWork(start, |steps|))
    {
      armed := false;
      for k := 0 to |steps|
        invariant Valid() && old(history) <= history
        invariant journal.outcome == Running && journal.current == None && begun == journal.completed == steps[..k]
        invariant armed == (MakeBootable in begun) && disarmCalls == old(disarmCalls)
        invariant clock == LookAt(start, k) && Uncancelled(start, k) && StepsWork(start, k)
      {
        ok, armed := LookAndStep(steps[k], armed, start, k);
        if !ok {
          return;
        }
      }
      ok := true;
    }

    /**
     One attempt. It finishes exactly when it may begin, no look finds a cancellation, no
     step fails and nothing is injected. If it does not finish, the one-shot is disarmed
     exactly once when the bootable step had begun and never otherwise; if it finishes,
     never. Every instant on the way is safe to recover from, and a refused attempt leaves
     no trace.
     */
    method Run(prepared: bool, startedAt: int) returns (ok: bool)
      requires Valid() && begun == [] && landed == [] && !oneShot
      modifies this
      ensures Valid() && old(history) <= history
      ensures !prepared ==> !ok && disk == old(disk) && state == old(state) && history == old(history)
      ensures prepared ==>
                (ok <==> Uncancelled(old(clock), |steps| + 1) && StepsWork(old(clock), |steps|) && inject != BeforeReboot)
      ensures disarmCalls == old(disarmCalls) + (if !ok && MakeBootable in begun then 1 else 0)
      ensures !ok && AllDisarm() ==> !oneShot
      ensures ok ==> begun == steps && journal.completed == steps && journal.outcome == Armed && state == Some(ArmedState)
      ensures prepared && !ok ==> (journal.outcome == Cancelled && state == Some(Staged(true)))
                                  || (journal.outcome == Failed && state == Some(FailedState) && journal.current.Some?)
      ensures prepared && !ok && StepsWork(old(clock), |steps|) ==> journal.outcome == Cancelled
      ensures prepared && !ok && Uncancelled(old(clock), |steps| + 1) && inject != BeforeReboot ==> journal.outcome == Failed
      ensures prepared && AllLand() ==> disk == Some(journal)
    {
      if !prepared {
        return false;
      }
      Flush(Journal(Running, None, [], Some(startedAt)));
      var armed;
      ok, armed := RunSteps(clock - 1);
      assert Uncancelled(old(clock), |steps| + 1) <==> Uncancelled(old(clock), |steps|) && Quiet(old(clock), |steps|);
      if ok {
        ok := Finish(armed);
      }
    }
  }
}
