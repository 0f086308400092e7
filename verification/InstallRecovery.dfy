/**
 Deciding after a stop what may be done next: the install journal and the other
 evidence on disk are turned into one recovery decision.
 */
module InstallRecovery {
  import opened Text

  /** The steps of the pipeline that recovery knows by name. */
  datatype Step = MakeRoom | DownloadLinux | DownloadSystem | PrepareLinux | MakeBootable | Other(number: nat)

  datatype Outcome = Running | Cancelled | Failed | Armed | Unknown

  /** startedAt is None when the timestamp cannot be parsed. */
  datatype Journal = Journal(
    outcome: Outcome, current: Option<Step>, completed: seq<Step>, startedAt: Option<int>)

  datatype Lifecycle = Healthy | Deployed | Deploying | FailedState | Staged(cancelled: bool) | ArmedState | OtherState

  /** What is found on relaunch; journal is None when it is absent or cannot be parsed. */
  datatype Observation = Observation(
    journal: Option<Journal>, ownerAlive: bool, state: Option<Lifecycle>, armedFile: bool,
    deployerStarted: bool, verdictFile: bool, rootDisk: bool, rootDiskTime: Option<int>)

  datatype Class = NoClass | Complete | InProgress | Resumable | FailedClass | NeedsRepair

  datatype Advice = NoAdvice | Resume | RetryDeploy | Remove

  datatype Decision = Decision(
    kind: Class, resume: bool, retryDeploy: bool, repairBoot: bool, remove: bool, advice: Advice, discards: bool)

  const SLACK := 120

  predicate Reached(j: Journal, s: Step) {
    j.current == Some(s) || s in j.completed
  }

  /** The attempt reached a step that changes the EFI partition or the firmware entries. */
  predicate BootChainTouched(j: Journal) {
    Reached(j, PrepareLinux) || Reached(j, MakeBootable)
  }

  /** root.disk is provably this attempt's own file, and no installer ever ran from it. */
  predicate PartialRootDiskOwned(o: Observation) {
    && o.journal.Some? && o.rootDisk && !o.deployerStarted && !o.armedFile && Reached(o.journal.value, MakeRoom)
    && o.state != Some(Deploying) && o.state != Some(Deployed) && o.state != Some(Healthy)
    && o.journal.value.startedAt.Some? && o.rootDiskTime.Some?
    && o.rootDiskTime.value >= o.journal.value.startedAt.value - SLACK
  }

  function ArmedActions(c: Class, o: Observation): Decision {
    Decision(c, false, o.armedFile, o.armedFile, true, if o.armedFile then RetryDeploy else Remove, false)
  }

  function ClassifyWithoutJournal(o: Observation): Decision {
    match o.state
    case Some(FailedState) => WithoutJournal(o, FailedClass)
    case Some(Staged(cancelled)) => WithoutJournal(o, if cancelled then Resumable else FailedClass)
    case _ => Decision(NoClass, false, false, false, false, NoAdvice, false)
  }

  function WithoutJournal(o: Observation, c: Class): Decision {
    var resume := !o.rootDisk && !o.armedFile;
    Decision(c, resume, false, false, true, if resume then Resume else Remove, false)
  }

  /** A stop that left nothing behind at boot level. */
  function ClassifyUntouched(o: Observation, c: Class): Decision {
    var blocked := o.rootDisk && !PartialRootDiskOwned(o);
    Decision(c, !blocked, false, false, true, if blocked then Remove else Resume, o.rootDisk && !blocked)
  }

  function ClassifyJournal(o: Observation, j: Journal): Decision {
    if j.outcome.Running? && o.ownerAlive then Decision(InProgress, false, false, false, false, NoAdvice, false)
    else if j.outcome.Armed? || j.outcome.Unknown? then Decision(NeedsRepair, false, false, false, true, Remove, false)
    else if BootChainTouched(j) then Decision(NeedsRepair, false, false, o.armedFile, true, Remove, false)
    else ClassifyUntouched(o, if j.outcome.Failed? then FailedClass else Resumable)
  }

  function Classify(o: Observation): Decision {
    if o.state == Some(Healthy) then Decision(Complete, false, false, false, false, NoAdvice, false)
    else if o.state == Some(Deployed) then Decision(Complete, false, false, false, true, NoAdvice, false)
    else if o.state == Some(Deploying) then ArmedActions(Resumable, o)
    else if o.state == Some(FailedState) && o.deployerStarted then ArmedActions(FailedClass, o)
    else if (if o.journal.Some? then o.journal.value.outcome.Armed? else o.state == Some(ArmedState)) then
      if o.verdictFile && !o.deployerStarted then ArmedActions(Resumable, o)
      else Decision(Complete, false, false, false, true, NoAdvice, false)
    else
      match o.journal
      case None => ClassifyWithoutJournal(o)
      case Some(j) => ClassifyJournal(o, j)
  }

  // ---- what the evidence says ----------------------------------------------------------------

  /** The attempt got as far as one of these steps. */
  ghost predicate GotTo(j: Journal, steps: set<Step>) {
    exists s :: s in steps && (j.current == Some(s) || s in j.completed)
  }

  ghost predicate NamesBootChain(j: Journal) {
    GotTo(j, {PrepareLinux, MakeBootable})
  }

  lemma TouchedIff(j: Journal)
    ensures BootChainTouched(j) <==> NamesBootChain(j)
    ensures Reached(j, MakeRoom) <==> GotTo(j, {MakeRoom})
  {
    assert PrepareLinux in {PrepareLinux, MakeBootable} && MakeBootable in {PrepareLinux, MakeBootable} && MakeRoom in {MakeRoom};
  }

  /** root.disk was made by this very attempt, two minutes of clock drift aside, and nothing was armed or started from it. */
  ghost predicate ProvablyOwn(o: Observation) {
    && o.rootDisk && !o.armedFile && !o.deployerStarted && o.state !in {Some(Deploying), Some(Deployed), Some(Healthy)}
    && exists j, started, made ::
         && o.journal == Some(j) && j.startedAt == Some(started) && o.rootDiskTime == Some(made)
         && GotTo(j, {MakeRoom}) && started <= made + 120
  }

  lemma OwnedIff(o: Observation)
    ensures PartialRootDiskOwned(o) <==> ProvablyOwn(o)
  {
    if o.journal.Some? {
      TouchedIff(o.journal.value);
      if PartialRootDiskOwned(o) {
        var j := o.journal.value;
        assert o.journal == Some(j) && j.startedAt == Some(j.startedAt.value) && o.rootDiskTime == Some(o.rootDiskTime.value);
      }
    }
  }

  /** Whatever else is found, a journal that names a boot-chain step is never resumed. */
  lemma TouchedIsNeverResumed(o: Observation)
    requires o.journal.Some? && NamesBootChain(o.journal.value)
    ensures !Classify(o).resume && !Classify(o).discards
  {
    TouchedIff(o.journal.value);
    assert !ClassifyJournal(o, o.journal.value).resume;
  }

  /** The deployer has taken over, whatever the journal says. */
  ghost predicate DeployerReached(o: Observation) {
    || o.state in {Some(Healthy), Some(Deployed), Some(Deploying)}
    || (o.state == Some(FailedState) && o.deployerStarted)
  }

  /** A journal whose attempt ended without success, or whose process died. */
  ghost predicate Stopped(j: Journal, ownerAlive: bool) {
    j.outcome in {Cancelled, Failed} || (j.outcome == Running && !ownerAlive)
  }

  /** A journal that ended, or whose process died, before the boot chain was touched. */
  ghost predicate StoppedEarly(j: Journal, ownerAlive: bool) {
    !NamesBootChain(j) && Stopped(j, ownerAlive)
  }

  /** Without a journal, a state that says the first phase stopped. */
  ghost predicate StoppedByState(o: Observation) {
    o.state in {Some(FailedState), Some(Staged(true)), Some(Staged(false))}
  }

  /** Preparation had finished, and only the restart was missing. */
  ghost predicate WasArmed(o: Observation) {
    match o.journal
    case Some(j) => j.outcome == Armed
    case None => o.state == Some(ArmedState)
  }

  lemma StagedIsStopped(o: Observation)
    ensures o.state.Some? && o.state.value.Staged? ==> o.state == Some(Staged(true)) || o.state == Some(Staged(false))
  {
  }

  /**
   Starting over is offered exactly after a stop that provably left nothing behind: no
   deployer, no boot-chain step, and no root.disk that could hold somebody's Linux. It
   discards a root.disk exactly when it is offered and there is one.
   */
  lemma ResumeOfferedIff(o: Observation)
    ensures Classify(o).resume <==>
              && !DeployerReached(o)
              && match o.journal
                 case Some(j) => StoppedEarly(j, o.ownerAlive) && (o.rootDisk ==> ProvablyOwn(o))
                 case None => StoppedByState(o) && !o.rootDisk && !o.armedFile
    ensures Classify(o).discards <==> Classify(o).resume && o.rootDisk
  {
    OwnedIff(o);
    StagedIsStopped(o);
    if o.journal.Some? {
      TouchedIff(o.journal.value);
    }
  }

  /** The firmware went past the armed entry, or the installer it started did not finish: the chain can be armed again. */
  ghost predicate ChainToRetry(o: Observation) {
    || o.state == Some(Deploying)
    || (o.state == Some(FailedState) && o.deployerStarted)
    || (o.state !in {Some(Healthy), Some(Deployed)} && WasArmed(o) && o.verdictFile && !o.deployerStarted)
  }

  /** Retrying needs the record of an armed chain; repairing also helps where an attempt stopped on the way to one. */
  lemma RetryAndRepairOfferedIff(o: Observation)
    ensures Classify(o).retryDeploy <==> o.armedFile && ChainToRetry(o)
    ensures Classify(o).repairBoot <==>
              && o.armedFile
              && (ChainToRetry(o)
                  || (!DeployerReached(o) && o.journal.Some? && Stopped(o.journal.value, o.ownerAlive) && NamesBootChain(o.journal.value)))
  {
    if o.journal.Some? {
      TouchedIff(o.journal.value);
    }
  }

  /** Nothing that could be taken back: Linux is healthy, an installer is at work, or there is no trace of one. */
  ghost predicate NothingToRemove(o: Observation) {
    || o.state == Some(Healthy)
    || (!DeployerReached(o)
        && match o.journal
           case Some(j) => j.outcome == Running && o.ownerAlive
           case None => !StoppedByState(o) && o.state != Some(ArmedState))
  }

  /** Linux is installed, or everything is ready for the restart. */
  ghost predicate Done(o: Observation) {
    o.state in {Some(Healthy), Some(Deployed)} || (!DeployerReached(o) && WasArmed(o) && !ChainToRetry(o))
  }

  /** Removal is offered wherever something is left; what is recommended is the gentlest thing that is offered. */
  lemma AdviceIff(o: Observation)
    ensures Classify(o).remove <==> !NothingToRemove(o)
    ensures var r := Classify(o);
            r.advice == (if r.resume then Resume else if r.retryDeploy then RetryDeploy
                         else if r.remove && !Done(o) then Remove else NoAdvice)
  {
    StagedIsStopped(o);
    RetryAndRepairOfferedIff(o);
  }

  /** How the last attempt is described. */
  lemma KindIff(o: Observation)
    ensures Classify(o).kind ==
              (if Done(o) then Complete
               else if ChainToRetry(o) then (if o.state == Some(FailedState) && o.deployerStarted then FailedClass else Resumable)
               else
                 match o.journal
                 case None =>
                   if o.state == Some(Staged(true)) then Resumable else if StoppedByState(o) then FailedClass else NoClass
                 case Some(j) =>
                   if j.outcome == Running && o.ownerAlive then InProgress
                   else if !Stopped(j, o.ownerAlive) || NamesBootChain(j) then NeedsRepair
                   else if j.outcome == Failed then FailedClass else Resumable)
  {
    StagedIsStopped(o);
    if o.journal.Some? {
      TouchedIff(o.journal.value);
    }
  }

  /**
   root.disk is discarded only if this attempt reached the step that creates it, the
   file is not older than the attempt, and nothing was ever armed or started from it.
   */
  lemma DiscardsOnlyOwnRootDisk(o: Observation)
    requires Classify(o).discards
    ensures Classify(o).resume && ProvablyOwn(o)
  {
    ResumeOfferedIff(o);
    assert o.journal.Some?;
  }

  /** The root.disk file, which resuming may remove. */
  class InstallFolder {
    var rootDisk: bool

    constructor (rootDisk: bool)
      ensures this.rootDisk == rootDisk
    {
      this.rootDisk := rootDisk;
    }

    /** Clear the way for a new run: refuses unless resuming is safe, and removes only an owned root.disk. */
    method PrepareResume(evidence: Observation, removable: bool) returns (ok: bool, discarded: bool)
      requires evidence.rootDisk == rootDisk
      modifies this
      ensures ok <==> Classify(evidence).resume && (old(rootDisk) ==> removable)
      ensures rootDisk == (old(rootDisk) && !ok) && discarded == (old(rootDisk) && ok)
      ensures rootDisk != old(rootDisk) ==> ProvablyOwn(evidence) && discarded
      ensures evidence.journal.Some? && NamesBootChain(evidence.journal.value) ==> !ok && rootDisk == old(rootDisk)
    {
      var r := Classify(evidence);
      ResumeOfferedIff(evidence);
      if !r.resume {
        return false, false;
      }
      if r.discards {
        DiscardsOnlyOwnRootDisk(evidence);
        if !removable {
          return false, false;
        }
        rootDisk := false;
      }
      ok, discarded := true, r.discards;
    }
  }
}
