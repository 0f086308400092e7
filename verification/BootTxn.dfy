/**
 The boot-chain transaction: build an inert entry, arm it once, or take everything
 back. Every command may fail without effect, exit codes mean nothing, listings may
 be unreadable, and the power may fail after any command.
 */
module BootTxn {
  import opened BootStore
  import opened BootChain

  /** What the machine does with one request. */
  datatype Fault = Fault(
    applied: bool,        // the command takes effect, the record reaches the disk
    exit: bool,           // bcdedit reports success
    readable: bool,       // the firmware listing can be read
    listed: bool,         // /copy also enters the clone in the permanent order,
    slot: nat,            // at this place
    named: bool,          // /copy prints the identifier of the clone it made
    hidden: set<string>)  // ESP files that cannot be hashed

  /** How a transaction step ended: done, refused untouched, taken back, or cleanup not confirmed. */
  datatype Outcome = Done | Refused | Undone | NotUndone

  class Machine {
    var w: World
    var clock: nat
    const esp: map<string, string>
    const faults: nat -> Fault
    ghost const foreign: set<Id>
    ghost const origin: World
    ghost var run: seq<Move>
    ghost var looks: nat    // how often the firmware has been listed
    ghost var builds: nat   // how often the building of an entry has been announced

    /** A machine switched on in world w0; its answers are `faults`. */
    constructor (w0: World, esp: map<string, string>, faults: nat -> Fault, ghost foreign: set<Id>)
      requires Good(foreign, w0)
      ensures Valid() && w == origin == w0 && run == []
      ensures this.esp == esp && this.faults == faults && this.foreign == foreign
    {
      w := w0;
      clock := 0;
      this.esp := esp;
      this.faults := faults;
      this.foreign := foreign;
      origin := w0;
      run := [];
      looks, builds := 0, 0;
    }

    /** The history so far is a legal run that led here from a good machine. */
    ghost predicate Valid()
      reads this
    {
      && LegalRun(foreign, esp, origin, run)
      && w == EndOf(origin, run)
      && Good(foreign, origin)
    }

    /** From now on every command takes effect and every listing can be read. */
    ghost predicate Obeys()
      reads this
    {
      forall n: nat :: clock <= n ==>
        var f := faults(n);
        f.applied && f.exit && f.readable && f.named && f.hidden == {}
    }

    ghost predicate InHand(txn: Txn)
      reads this
    {
      txn.guid !in foreign && Given(w, txn.guid)
    }

    /** Every instant since `was` recovers to the given end. */
    ghost predicate AllRecoverTo(was: nat, deployerStarted: bool, ls: Lifecycle, end: (Store, Journal))
      requires was <= |run|
      reads this
    {
      forall i :: was <= i < |run| ==> Recovered(run[i].after, deployerStarted, ls) == end
    }

    // ---- single requests -----------------------------------------------------

    /** Issue one command; it takes effect or does nothing, and its exit code is whatever it is. */
    method Issue(a: Action) returns (exit: bool)
      requires Valid() && Permitted(foreign, esp, w, a)
      modifies this
      ensures Valid() && run == old(run) + [Move(old(w), a, w)] && clock == old(clock) + 1 && looks == old(looks) && builds == old(builds)
      ensures w == if faults(old(clock)).applied then Apply(old(w), a) else old(w)
      ensures exit == faults(old(clock)).exit
      ensures old(Obeys()) ==> Obeys() && exit && w == Apply(old(w), a)
    {
      var f := faults(clock);
      clock := clock + 1;
      ghost var m := Move(w, a, if f.applied then Apply(w, a) else w);
      ExtendRun(foreign, esp, origin, run, m);
      run := run + [m];
      if f.applied {
        w := Apply(w, a);
      }
      exit := f.exit;
    }

    /** Journal a phase: the record is on disk, or the old record is still there and this reports it. */
    method Save(txn: Txn, phase: Phase) returns (t: Txn, ok: bool)
      requires Valid() && Permitted(foreign, esp, w, SaveJournal(txn.(phase := phase)))
      modifies this
      ensures Valid() && t == txn.(phase := phase)
      ensures run == old(run) + [Move(old(w), SaveJournal(t), w)] && looks == old(looks)
      ensures builds == old(builds) + if phase == CreatingEntry then 1 else 0
      ensures ok == faults(old(clock)).applied
      ensures w == if ok then Apply(old(w), SaveJournal(t)) else old(w)
      ensures old(Obeys()) ==> Obeys() && ok
    {
      t := txn.(phase := phase);
      ok := faults(clock).applied;
      var _ := Issue(SaveJournal(t));
      builds := builds + if phase == CreatingEntry then 1 else 0;
    }

    /** Read the firmware listing: the true store, or an error. */
    method ObserveFirmware() returns (ok: bool, seen: Store)
      requires Valid()
      modifies this`clock, this`looks
      ensures looks == old(looks) + 1
      ensures Valid() && clock == old(clock) + 1 && ok == faults(old(clock)).readable
      ensures ok ==> seen == w.store
      ensures old(Obeys()) ==> Obeys() && ok
    {
      ok, seen := faults(clock).readable, w.store;
      clock := clock + 1;
      looks := looks + 1;
    }

    /** Hash the staged ESP files; files that cannot be read are absent from the result. */
    method HashEsp(staged: map<string, string>) returns (observed: map<string, string>)
      requires Valid()
      modifies this`clock
      ensures Valid() && TrueHashes(observed, esp)
      ensures old(Obeys()) ==> Obeys() && forall rel :: rel in staged && rel in esp ==> rel in observed
    {
      var hidden := faults(clock).hidden;
      observed := map rel | rel in staged && rel in esp && rel !in hidden :: esp[rel];
      clock := clock + 1;
    }

    // ---- cleanup ---------------------------------------------------------------

    /**
     A sweep that began in world w0 with history r0 has changed nothing but the
     store; if the machine obeys, sweeping on from any instant ends where it would have.
     */
    ghost predicate Sweeping(r0: seq<Move>, w0: World, guid: Id, obeys: bool)
      reads this
    {
      && Valid() && r0 <= run
      && w == w0.(store := w.store)
      && (obeys ==> Obeys() && Swept(w.store, guid) == Swept(w0.store, guid))
      && (forall i :: |r0| <= i < |run| ==>
            && run[i].after == w0.(store := run[i].after.store)
            && (obeys ==> Swept(run[i].after.store, guid) == Swept(w0.store, guid)))
    }

    method SweepOne(a: Action, ghost r0: seq<Move>, ghost w0: World, ghost guid: Id, ghost obeys: bool)
      requires Sweeping(r0, w0, guid, obeys)
      requires a.RemoveFromSequence? || a.RemoveFromOrder? || a.DeleteEntry? || a.ClearSequence?
      requires Permitted(foreign, esp, w, a)
      requires obeys ==> SweepCommand(w.store, guid, a)
      modifies this
      ensures Sweeping(r0, w0, guid, obeys) && looks == old(looks) && builds == old(builds)
      ensures run == old(run) + [Move(old(w), a, w)] && clock == old(clock) + 1
      ensures obeys || faults(old(clock)).applied ==> w == Apply(old(w), a)
    {
      if obeys {
        SweepCommandKeepsOutcome(w, guid, a);
      }
      var _ := Issue(a);
    }

    ghost predicate AppliesFor(from: nat, ticks: nat) {
      forall n: nat :: from <= n < from + ticks ==> faults(n).applied
    }

    /** Without a listing the journaled GUID is taken out of everything by name. */
    method SweepBlindly(guid: Id, ghost r0: seq<Move>, ghost w0: World, ghost obeys: bool)
      requires Sweeping(r0, w0, guid, obeys) && guid.Guid? && guid !in foreign && !obeys
      modifies this
      ensures Sweeping(r0, w0, guid, obeys) && looks == old(looks) && builds == old(builds)
      ensures AppliesFor(old(clock), 3) ==> Gone(w.store, guid)
    {
      SweepOne(RemoveFromSequence(guid), r0, w0, guid, obeys);
      SweepOne(RemoveFromOrder(guid), r0, w0, guid, obeys);
      SweepOne(DeleteEntry(guid), r0, w0, guid, obeys);
    }

    /**
     Remove every wootc entry from the one-shot, the permanent order and the store.
     Exit codes are ignored; the caller looks at the result.
     */
    method SweepWootcEntries(guid: Id)
      requires Valid() && guid !in foreign
      modifies this
      ensures Sweeping(old(run), old(w), guid, old(Obeys())) && looks == old(looks) + 1 && builds == old(builds)
      ensures old(Obeys()) ==> w.store == Swept(old(w.store), guid)
      ensures !faults(old(clock)).readable && guid.Guid? && AppliesFor(old(clock) + 1, 3) ==> Gone(w.store, guid)
    {
      ghost var obeys := Obeys();
      var ok, seen := ObserveFirmware();
      if !ok {
        if guid.Guid? {
          SweepBlindly(guid, old(run), old(w), obeys);
        }
        return;
      }
      var ids := WootcEntryIds(seen.objs, guid);
      assert ids !! foreign by {
        EveryRunEndsGood(foreign, esp, origin, run);
      }
      SweepSequence(seen.bootsequence, ids, guid, old(run), old(w), obeys);
      SweepEntries(ids, guid, old(run), old(w), obeys);
      if obeys {
        SweptIsStable(w.store, guid);
      }
    }

    /** The one-shot loses every element of ids; it is cleared only when all of it is wootc's. */
    method SweepSequence(listed: seq<Id>, ids: set<Id>, guid: Id,
                         ghost r0: seq<Move>, ghost w0: World, ghost obeys: bool)
      requires Sweeping(r0, w0, guid, obeys)
      requires listed == w.store.bootsequence && ids == WootcEntryIds(w.store.objs, guid) && ids !! foreign
      modifies this
      ensures Sweeping(r0, w0, guid, obeys) && looks == old(looks) && builds == old(builds)
      ensures obeys ==> w.store.objs == old(w.store.objs)
      ensures obeys ==> forall id :: id in ids ==> id !in w.store.bootsequence
      ensures if listed != [] && forall id :: id in listed ==> id in ids
              then |run| == |old(run)| + 1 && run[|old(run)|].act == ClearSequence
              else OneByOne(|old(run)|)
    {
      if |listed| > 0 && forall s :: s in listed ==> s in ids {
        SweepOne(ClearSequence, r0, w0, guid, obeys);
        return;
      }
      DisarmEach(listed, ids, guid, r0, w0, obeys);
    }

    /** Since `was`, elements have left the one-shot one at a time. */
    ghost predicate OneByOne(was: nat)
      reads this
    {
      was <= |run| && forall i :: was <= i < |run| ==> run[i].act.RemoveFromSequence?
    }

    method DisarmEach(listed: seq<Id>, ids: set<Id>, guid: Id,
                      ghost r0: seq<Move>, ghost w0: World, ghost obeys: bool)
      requires Sweeping(r0, w0, guid, obeys) && ids !! foreign
      requires obeys ==> listed == w.store.bootsequence && ids == WootcEntryIds(w.store.objs, guid)
      modifies this
      ensures Sweeping(r0, w0, guid, obeys) && looks == old(looks) && builds == old(builds)
      ensures obeys ==> w.store.objs == old(w.store.objs)
      ensures obeys ==> forall id :: id in ids ==> id !in w.store.bootsequence
      ensures OneByOne(|old(run)|)
    {
      var rest := listed;
      while rest != []
        invariant Sweeping(r0, w0, guid, obeys) && looks == old(looks) && builds == old(builds) && OneByOne(|old(run)|)
        invariant obeys ==> w.store.objs == old(w.store.objs)
        invariant obeys ==> forall x :: x in w.store.bootsequence && x in ids ==> x in rest
        decreases |rest|
      {
        if rest[0] in ids {
          DisarmOne(rest[0], r0, w0, guid, obeys);
        }
        rest := rest[1..];
      }
    }

    method DisarmOne(id: Id, ghost r0: seq<Move>, ghost w0: World, ghost guid: Id, ghost obeys: bool)
      requires Sweeping(r0, w0, guid, obeys) && id !in foreign
      requires obeys ==> id in WootcEntryIds(w.store.objs, guid)
      modifies this
      ensures Sweeping(r0, w0, guid, obeys) && looks == old(looks) && builds == old(builds)
      ensures obeys ==> w.store.objs == old(w.store.objs)
      ensures obeys ==> forall x :: x in w.store.bootsequence <==> x in old(w.store.bootsequence) && x != id
      ensures run == old(run) + [Move(old(w), RemoveFromSequence(id), w)]
    {
      SweepOne(RemoveFromSequence(id), r0, w0, guid, obeys);
    }

    /** Every element of ids leaves the permanent order, then the store. */
    method SweepEntries(ids: set<Id>, guid: Id, ghost r0: seq<Move>, ghost w0: World, ghost obeys: bool)
      requires Sweeping(r0, w0, guid, obeys) && ids !! foreign
      requires obeys ==> ids == WootcEntryIds(w.store.objs, guid)
      requires obeys ==> forall id :: id in ids ==> id !in w.store.bootsequence
      modifies this
      ensures Sweeping(r0, w0, guid, obeys) && looks == old(looks) && builds == old(builds)
      ensures obeys ==> Clean(w.store, guid)
    {
      var rest := ids;
      while rest != {}
        invariant Sweeping(r0, w0, guid, obeys) && looks == old(looks) && builds == old(builds) && rest <= ids
        invariant obeys ==> forall id :: id in ids ==> id !in w.store.bootsequence
        invariant obeys ==> forall id :: id in ids - rest ==> id !in w.store.displayorder && id !in w.store.objs
        invariant obeys ==> DescribedIds(w.store.objs) <= rest <= WootcEntryIds(w.store.objs, guid)
        invariant obeys && guid.Guid? ==> guid in ids
        decreases |rest|
      {
        var id :| id in rest;
        SweepOne(RemoveFromOrder(id), r0, w0, guid, obeys);
        SweepOne(DeleteEntry(id), r0, w0, guid, obeys);
        rest := rest - {id};
      }
      DescribedAreOurs(w.store.objs, guid);
    }

    // ---- rollback ----------------------------------------------------------------

    /** Every instant since `was` is inside a rollback of txn that ends in the store `end`. */
    ghost predicate AllRollingTo(was: nat, txn: Txn, end: Store)
      reads this
    {
      forall i :: was <= i < |run| ==> RollingTo(run[i].after, txn, end)
    }

    /** One pass of cleanup; `clean` is what the listing showed afterwards. */
    method SweepAndLook(guid: Id) returns (clean: bool)
      requires Valid() && guid !in foreign
      modifies this
      ensures Sweeping(old(run), old(w), guid, old(Obeys())) && looks == old(looks) + 2 && builds == old(builds)
      ensures clean ==> Clean(w.store, guid)
      ensures old(Obeys()) ==> clean && w.store == Swept(old(w.store), guid)
    {
      SweepWootcEntries(guid);
      if Obeys() {
        SweptIsClean(old(w.store), guid);
      }
      NoResidue(w.store, guid);
      var readable, seen := ObserveFirmware();
      clean := readable && BootChainResidue(seen, guid) == {};
    }

    /** The cleanup, and once more when it did not show clean; it gives up after two passes of two looks each. */
    method SweepTwice(guid: Id) returns (clean: bool)
      requires Valid() && guid !in foreign
      modifies this
      ensures Sweeping(old(run), old(w), guid, old(Obeys()))
      ensures clean ==> Clean(w.store, guid)
      ensures (looks == old(looks) + 4 || (clean && looks == old(looks) + 2)) && builds == old(builds)
      ensures old(Obeys()) ==> clean && w.store == Swept(old(w.store), guid) && looks == old(looks) + 2
    {
      clean := false;
      var attempt := 1;
      while attempt <= 2 && !clean
        invariant Sweeping(old(run), old(w), guid, old(Obeys()))
        invariant clean ==> Clean(w.store, guid)
        invariant 1 <= attempt <= 3 && looks == old(looks) + 2 * (attempt - 1) && builds == old(builds) && (clean ==> attempt > 1)
        invariant old(Obeys()) && clean ==> attempt == 2
        invariant old(Obeys()) ==> if clean then w.store == Swept(old(w.store), guid) else attempt == 1 && w == old(w)
        decreases 2 - attempt
      {
        clean := SweepAndLook(guid);
        attempt := attempt + 1;
      }
    }

    /** The record on disk is one that an unfinished rollback of txn leaves. */
    ghost predicate RollingAs(txn: Txn)
      reads this
    {
      w.journal == Record(txn.(phase := RollingBack)) || w.journal == Record(txn.(phase := RollbackUnconfirmed))
    }

    /** The last command was an attempt to journal how the rollback of txn ended. */
    ghost predicate TriedToRecord(was: nat, txn: Txn)
      reads this
    {
      && was < |run|
      && var last := run[|run| - 1].act;
         last == SaveJournal(txn.(phase := RolledBack)) || last == SaveJournal(txn.(phase := RollbackUnconfirmed))
    }

    /** No command since `was` has changed the journal on disk: nothing that was saved landed. */
    ghost predicate JournalStill(was: nat, j: Journal)
      reads this
    {
      w.journal == j && forall i :: was <= i < |run| ==> run[i].after.journal == j
    }

    /**
     Remove every wootc entry and one-shot, look, and only then say so in the journal.
     A rollback that fails says so in the journal too, unless not one of its records
     reaches the disk.
     */
    method RollbackBootChainTxn(txn: Txn) returns (t: Txn, ok: bool)
      requires Valid() && InHand(txn)
      modifies this
      ensures Valid() && old(run) <= run
      ensures t.guid == txn.guid && t.efiPath == txn.efiPath && t.staged == txn.staged && builds == old(builds)
      ensures ok ==> t == txn.(phase := RolledBack) && w.journal == Record(t) && Clean(w.store, txn.guid)
      ensures !ok ==> RollingAs(txn) || JournalStill(|old(run)|, old(w.journal))
      ensures !ok && faults(old(clock)).applied ==> RollingAs(txn)
      ensures TriedToRecord(|old(run)|, txn)
      ensures w.guidFile == old(w.guidFile)
      ensures old(Obeys()) ==> Obeys() && ok && w.store == Swept(old(w.store), txn.guid)
      ensures old(Obeys()) ==> AllRollingTo(|old(run)|, txn, Swept(old(w.store), txn.guid))
    {
      t, ok := Save(txn, RollingBack); // cleanup matters more than the record
      t, ok := SweepAndRecord(t);
    }

    /** The rollback after its first record: clean up, and journal what the last look showed. */
    method SweepAndRecord(txn: Txn) returns (t: Txn, ok: bool)
      requires Valid() && InHand(txn)
      modifies this
      ensures Valid() && old(run) <= run
      ensures t == txn.(phase := t.phase) && w.guidFile == old(w.guidFile) && builds == old(builds)
      ensures ok ==> t.phase == RolledBack && w.journal == Record(t) && Clean(w.store, txn.guid)
      ensures !ok ==> w.journal == Record(txn.(phase := RollbackUnconfirmed)) || JournalStill(|old(run)|, old(w.journal))
      ensures TriedToRecord(|old(run)|, txn)
      ensures old(Obeys()) ==> Obeys() && ok && w.store == Swept(old(w.store), txn.guid)
      ensures old(Obeys()) && old(w.journal) == Record(txn.(phase := RollingBack)) ==>
                AllRollingTo(|old(run)|, txn, Swept(old(w.store), txn.guid))
    {
      var clean := SweepTwice(txn.guid);
      if clean {
        t, ok := Save(txn, RolledBack);
      } else {
        t, ok := Save(txn, RollbackUnconfirmed);
        ok := false;
      }
    }

    method RollbackAfter(txn: Txn) returns (t: Txn, r: Outcome)
      requires Valid() && InHand(txn)
      modifies this
      ensures Valid() && old(run) <= run
      ensures (r == Undone || r == NotUndone) && builds == old(builds)
      ensures r == Undone ==> UndoneAs(t)
      ensures r == NotUndone && AlwaysRolledBack(old(w.journal)) ==> AlwaysRolledBack(w.journal)
      ensures r == NotUndone && RolledBackUnlessStarted(old(w.journal)) ==> RolledBackUnlessStarted(w.journal)
      ensures r == NotUndone && faults(old(clock)).applied ==> AlwaysRolledBack(w.journal)
      ensures old(Obeys()) ==> r == Undone
    {
      var ok;
      t, ok := RollbackBootChainTxn(txn);
      r := if ok then Undone else NotUndone;
    }

    // ---- building the inert entry --------------------------------------------------

    /** Sweep, rewrite the Windows menu, and journal that a /copy is about to run. */
    method ClearForCopy(txn: Txn) returns (t: Txn, ok: bool)
      requires Valid() && InHand(txn)
      modifies this
      ensures Valid() && old(run) <= run
      ensures t == txn.(phase := CreatingEntry, guid := Blank)
      ensures w.next == old(w.next) && w.guidFile == old(w.guidFile) && builds == old(builds) + 1
      ensures |run| >= |old(run)| + 2 && run[|run| - 2].act == RefreshMenu && run[|run| - 1].act == SaveJournal(t)
      ensures if ok then w.journal == Record(t) else w.journal == old(w.journal)
      ensures old(Obeys()) ==> Obeys() && ok && DescribedIds(w.store.objs) == {}
    {
      SweepWootcEntries(txn.guid);
      if Obeys() {
        SweptIsClean(old(w.store), txn.guid);
      }
      var _ := Issue(RefreshMenu);
      BlankIsNotForeign();
      t, ok := Save(txn.(guid := Blank), CreatingEntry);
    }

    lemma BlankIsNotForeign()
      requires Valid()
      ensures Blank !in foreign
    {
    }

    /** Copy {bootmgr}: the clone exists or not, and the output names it or not. */
    method CopyEntry() returns (exit: bool, guid: Id)
      requires Valid() && JournalSays(w, CreatingEntry)
      modifies this
      ensures Valid() && old(run) <= run
      ensures w.journal == old(w.journal) && w.guidFile == old(w.guidFile) && w.next >= old(w.next)
      ensures builds == old(builds) && exit == faults(old(clock)).exit
      ensures guid != Blank ==> guid == Guid(old(w.next)) && FreshClone(old(w), w, guid) && InHand(EMPTY_TXN.(guid := guid))
      ensures old(Obeys()) ==> Obeys() && exit && guid != Blank
    {
      EveryRunEndsGood(foreign, esp, origin, run);
      var f := faults(clock);
      exit := Issue(CopyBootManager(f.listed, f.slot));
      guid := if f.applied && f.named then Guid(w.next - 1) else Blank;
    }

    /** Point the entry at its loader, take it out of the permanent order, record it for recovery. */
    method FinishEntry(t: Txn) returns (ok: bool)
      requires Valid() && InHand(t) && w.journal == Record(t) && t.guid in w.created
      modifies this
      ensures Valid() && old(run) <= run
      ensures w.journal == old(w.journal) && w.next == old(w.next) && w.created == old(w.created)
      ensures builds == old(builds)
      ensures ok <==> faults(old(clock)).exit && faults(old(clock) + 2).applied
      ensures ok ==> w.guidFile == t.guid
      ensures old(Obeys()) ==> Obeys() && ok && w.store.bootsequence == old(w.store.bootsequence)
      ensures old(Obeys()) && t.guid in old(w.store.objs) ==>
                && t.guid !in w.store.displayorder
                && w.store.objs == old(w.store.objs)[t.guid := old(w.store.objs)[t.guid].(path := t.efiPath)]
    {
      ok := Issue(SetPath(t.guid, t.efiPath));
      if !ok { return; }
      var _ := Issue(RemoveFromOrder(t.guid));
      ok := faults(clock).applied;
      var _ := Issue(WriteGuidFile(t.guid));
    }

    /** Observe the chain; true only for exactly the shape asked for. */
    method LooksRight(t: Txn, wantArmed: bool) returns (ok: bool)
      requires Valid()
      modifies this`clock, this`looks
      ensures Valid()
      ensures ok ==> if wantArmed then ArmedExactly(w.store, esp, t) else Inert(w.store, esp, t)
      ensures old(Obeys()) ==> Obeys()
      ensures old(Obeys()) && (if wantArmed then ArmedExactly(w.store, esp, t) else Inert(w.store, esp, t)) ==> ok
    {
      var readable, seen := ObserveFirmware();
      if !readable {
        return false;
      }
      var observed := HashEsp(t.staged);
      NoChainProblems(seen, t, observed, wantArmed);
      ok := BootChainProblems(seen, t, observed, wantArmed) == {};
    }

    /** Create one inert entry and prove it by observation. */
    method BuildBootEntry(txn: Txn) returns (t: Txn, ok: bool)
      requires Valid() && InHand(txn)
      modifies this
      ensures Valid() && old(run) <= run && InHand(t)
      ensures t.efiPath == txn.efiPath && t.staged == txn.staged && builds == old(builds) + 1
      ensures ok ==> BuiltAs(t)
      ensures w.journal == old(w.journal) || JournalSays(w, CreatingEntry) || JournalSays(w, EntryCreated)
      ensures old(Obeys()) ==> Obeys()
      ensures old(Obeys()) && EspChainIntact(txn.efiPath, txn.staged, esp) ==> ok
    {
      BlankIsNotForeign();
      t, ok := ClearForCopy(txn);
      if ok {
        t, ok := MakeEntry(t);
      }
    }

    ghost predicate BuiltAs(t: Txn)
      reads this
    {
      Inert(w.store, esp, t) && w.journal == Record(t) && t.guid in w.created && w.guidFile == t.guid
    }

    /** The entry itself: copied, journaled, finished, observed. */
    method MakeEntry(txn: Txn) returns (t: Txn, ok: bool)
      requires Valid() && InHand(txn) && w.journal == Record(txn) && txn.phase == CreatingEntry
      modifies this
      ensures Valid() && old(run) <= run && InHand(t)
      ensures t.efiPath == txn.efiPath && t.staged == txn.staged && builds == old(builds)
      ensures ok ==> BuiltAs(t) && faults(old(clock)).exit
      ensures JournalSays(w, CreatingEntry) || JournalSays(w, EntryCreated)
      ensures old(Obeys()) ==> Obeys()
      ensures old(Obeys()) && EspChainIntact(txn.efiPath, txn.staged, esp) && DescribedIds(old(w).store.objs) == {} ==> ok
    {
      ghost var obeys := Obeys() && DescribedIds(w.store.objs) == {};
      var exit, guid := CopyEntry();
      if !exit || guid == Blank {
        return txn, false;
      }
      t, ok := Save(txn.(guid := guid), EntryCreated);
      if !ok { return; }
      ok := FinishEntry(t);
      if !ok { return; }
      if obeys && EspChainIntact(txn.efiPath, txn.staged, esp) {
        assert DescribedIds(w.store.objs) == {guid};
        DescribedAreOurs(w.store.objs, guid);
        assert Inert(w.store, esp, t);
      }
      ok := LooksRight(t, false);
    }

    // ---- the two halves of the transaction -------------------------------------------

    /** One attempt: build the entry and journal `prepared`. */
    method PrepareOnce(txn: Txn) returns (t: Txn, ok: bool)
      requires Valid() && InHand(txn) && Building(w)
      modifies this
      ensures Valid() && old(run) <= run && InHand(t)
      ensures t.efiPath == txn.efiPath && t.staged == txn.staged && builds == old(builds) + 1
      ensures ok ==> PreparedAs(t)
      ensures !ok ==> Building(w)
      ensures old(Obeys()) && EspChainIntact(txn.efiPath, txn.staged, esp) ==> ok
    {
      t, ok := BuildBootEntry(txn);
      if ok {
        t, ok := Save(t, Prepared);
      }
    }

    ghost predicate PreparedAs(t: Txn)
      reads this
    {
      && w.journal == Record(t) && t.phase == Prepared
      && Inert(w.store, esp, t) && t.guid in w.created && w.guidFile == t.guid
    }

    ghost predicate CommittedAs(t: Txn)
      reads this
    {
      w.journal == Record(t) && t.phase == Committed && ArmedExactly(w.store, esp, t)
    }

    ghost predicate UndoneAs(t: Txn)
      reads this
    {
      w.journal == Record(t) && t.phase == RolledBack && Clean(w.store, t.guid)
    }

    /** Hash the staged files; true only when they are exactly as recorded. */
    method EspLooksRight(efiPath: string, staged: map<string, string>) returns (ok: bool)
      requires Valid()
      modifies this`clock
      ensures Valid() && (ok ==> EspChainIntact(efiPath, staged, esp))
      ensures old(Obeys()) ==> Obeys() && ok == EspChainIntact(efiPath, staged, esp)
    {
      var observed := HashEsp(staged);
      NoEspProblems(efiPath, staged, observed);
      ok := EspChainProblems(efiPath, staged, observed) == {};
      if ok {
        HashesFromObservation(efiPath, staged, observed, esp);
      }
    }

    /** Verify the staged files, then build an inert, verified entry, or take everything back. */
    method BeginBootChainTxn(efiPath: string, staged: map<string, string>) returns (t: Txn, r: Outcome)
      requires Valid()
      modifies this
      ensures Valid() && old(run) <= run
      ensures r == Done ==> PreparedAs(t) && t.efiPath == efiPath && t.staged == staged
      ensures r == Refused ==> w == old(w)
      ensures r == Undone ==> UndoneAs(t)
      ensures r == NotUndone ==> AlwaysRolledBack(w.journal)
      ensures r == Undone || r == NotUndone ==> builds == old(builds) + 3
      ensures old(Obeys()) ==> r == if EspChainIntact(efiPath, staged, esp) then Done else Refused
    {
      BlankIsNotForeign();
      t := EMPTY_TXN.(efiPath := efiPath, staged := staged);
      var ok := EspLooksRight(efiPath, staged);
      if !ok {
        return t, Refused;
      }
      t, ok := Save(t, Begun);
      if !ok {
        return t, Refused;
      }
      t, r := PrepareWithRetries(t);
    }

    method PrepareWithRetries(txn: Txn) returns (t: Txn, r: Outcome)
      requires Valid() && InHand(txn) && Building(w)
      modifies this
      ensures Valid() && old(run) <= run
      ensures r != Refused
      ensures r == Done ==> PreparedAs(t) && t.efiPath == txn.efiPath && t.staged == txn.staged
      ensures r == Undone ==> UndoneAs(t)
      ensures r == NotUndone ==> AlwaysRolledBack(w.journal)
      ensures r != Done ==> builds == old(builds) + 3
      ensures old(Obeys()) && EspChainIntact(txn.efiPath, txn.staged, esp) ==> r == Done
    {
      ghost var obeys := Obeys() && EspChainIntact(txn.efiPath, txn.staged, esp);
      t := txn;
      var attempt := 1;
      while attempt <= 3
        invariant Valid() && old(run) <= run && InHand(t) && Building(w)
        invariant t.efiPath == txn.efiPath && t.staged == txn.staged
        invariant 1 <= attempt <= 4 && builds == old(builds) + attempt - 1
        invariant obeys ==> attempt == 1 && Obeys()
      {
        var ok;
        t, ok := PrepareOnce(t);
        if ok {
          return t, Done;
        }
        attempt := attempt + 1;
      }
      t, r := RollbackAfter(t);
    }

    /**
     Set the one-shot, the commit point, and prove it. A failed attempt builds the
     entry again before the next one.
     */
    method ArmBootChainTxn(txn: Txn) returns (t: Txn, r: Outcome)
      requires Valid() && w.journal == Record(txn)
      modifies this
      ensures Valid() && old(run) <= run
      ensures r == Refused <==> txn.phase != Prepared && txn.phase != Arming
      ensures r == Refused ==> w == old(w)
      ensures r == Done ==> CommittedAs(t)
      ensures r == Undone ==> UndoneAs(t)
      ensures r == NotUndone ==> RolledBackUnlessStarted(w.journal)
      ensures r == Undone || r == NotUndone ==> builds == old(builds) + 2
      ensures old(Obeys()) && r != Refused ==> r == if EspChainIntact(txn.efiPath, txn.staged, esp) then Done else Undone
      ensures old(Obeys()) && r != Refused && Inert(old(w.store), esp, txn) ==> r == Done && t.guid == txn.guid
    {
      if txn.phase != Prepared && txn.phase != Arming {
        return txn, Refused;
      }
      RecordInHand(txn);
      t, r := ArmWithRetries(txn);
    }

    method ArmWithRetries(txn: Txn) returns (t: Txn, r: Outcome)
      requires Valid() && InHand(txn) && RolledBackUnlessStarted(w.journal)
      modifies this
      ensures Valid() && old(run) <= run
      ensures r != Refused
      ensures r == Done ==> CommittedAs(t)
      ensures r == Undone ==> UndoneAs(t)
      ensures r == NotUndone ==> RolledBackUnlessStarted(w.journal)
      ensures r != Done ==> builds == old(builds) + 2
      ensures old(Obeys()) ==> r == if EspChainIntact(txn.efiPath, txn.staged, esp) then Done else Undone
      ensures old(Obeys()) && Inert(old(w.store), esp, txn) ==> r == Done && t.guid == txn.guid
    {
      ghost var obeys, intact, inert := Obeys(), EspChainIntact(txn.efiPath, txn.staged, esp), Inert(w.store, esp, txn);
      t := txn;
      var attempt := 1;
      while attempt <= 3
        invariant Valid() && old(run) <= run && InHand(t) && RolledBackUnlessStarted(w.journal)
        invariant t.efiPath == txn.efiPath && t.staged == txn.staged
        invariant attempt == 1 ==> t == txn && w == old(w) && run == old(run)
        invariant 1 <= attempt <= 4 && builds == old(builds) + (if attempt <= 2 then 0 else attempt - 2)
        invariant obeys ==> Obeys() && (intact ==> attempt <= 2) && (inert ==> attempt == 1)
      {
        var ok;
        if attempt > 1 {
          t, ok := BuildBootEntry(t);
          if ok {
            t, ok := ArmBuilt(t);
          }
        } else {
          t, ok := ArmOnce(t);
        }
        if ok {
          return t, Done;
        }
        attempt := attempt + 1;
      }
      t, r := RollbackAfter(t);
    }

    lemma RecordInHand(txn: Txn)
      requires Valid() && w.journal == Record(txn)
      ensures InHand(txn)
    {
      EveryRunEndsGood(foreign, esp, origin, run);
    }

    /** One attempt: journal `arming`, set the one-shot, look, journal `committed`. */
    method ArmOnce(txn: Txn) returns (t: Txn, ok: bool)
      requires Valid() && InHand(txn)
      modifies this
      ensures Valid() && old(run) <= run && InHand(t)
      ensures t.efiPath == txn.efiPath && t.staged == txn.staged && t.guid == txn.guid && builds == old(builds)
      ensures ok ==> CommittedAs(t)
      ensures !ok ==> w.journal == old(w.journal) || JournalSays(w, Arming)
      ensures old(Obeys()) ==> Obeys()
      ensures old(Obeys()) && Inert(old(w.store), esp, txn) ==> ok
    {
      t, ok := Save(txn, Arming);
      if !ok { return; }
      ok := ArmAndLook(t);
      if ok {
        t, ok := Save(t, Committed);
      }
    }

    /** A rebuilt entry is armed only after it was seen to be inert. */
    method ArmBuilt(txn: Txn) returns (t: Txn, ok: bool)
      requires Valid() && InHand(txn) && BuiltAs(txn)
      modifies this
      ensures Valid() && old(run) <= run && InHand(t)
      ensures t.efiPath == txn.efiPath && t.staged == txn.staged && t.guid == txn.guid && builds == old(builds)
      ensures ok ==> CommittedAs(t)
      ensures !ok ==> w.journal == old(w.journal) || JournalSays(w, Arming)
      ensures old(Obeys()) ==> Obeys() && ok
    {
      t, ok := ArmOnce(txn);
    }

    /** Set the one-shot, and prove it by observation. */
    method ArmAndLook(t: Txn) returns (ok: bool)
      requires Valid() && InHand(t) && w.journal == Record(t) && t.phase == Arming
      modifies this
      ensures Valid() && old(run) <= run && InHand(t) && builds == old(builds)
      ensures w.journal == old(w.journal)
      ensures ok ==> ArmedExactly(w.store, esp, t) && faults(old(clock)).exit
      ensures old(Obeys()) ==> Obeys()
      ensures old(Obeys()) && Inert(old(w.store), esp, t) ==> ok
    {
      ghost var obeys := Obeys() && Inert(w.store, esp, t);
      ok := Issue(ArmFirst(t.guid));
      if !ok { return; }
      assert obeys ==> ArmedExactly(w.store, esp, t);
      ok := LooksRight(t, true);
    }

    // ---- the callers -------------------------------------------------------------------

    /** Arm the prepared chain of the journal on disk, if armed.json can be read and the ESP found. */
    method ArmBootChain(armedRecord: bool, espFound: bool) returns (r: Outcome)
      requires Valid()
      modifies this
      ensures Valid() && old(run) <= run
      ensures r == Done ==> w.journal.Record? && CommittedAs(w.journal.txn)
      ensures r == Refused <==> !armedRecord || !espFound || (!old(JournalSays(w, Prepared)) && !old(JournalSays(w, Arming)))
      ensures r == Refused ==> w == old(w)
      ensures r == Undone ==> w.journal.Record? && UndoneAs(w.journal.txn)
      ensures r == NotUndone ==> RolledBackUnlessStarted(w.journal)
      ensures old(Obeys()) && r != Refused ==>
                var txn := old(w).journal.txn; r == if EspChainIntact(txn.efiPath, txn.staged, esp) then Done else Undone
    {
      if !w.journal.Record? || !armedRecord || !espFound {
        return Refused;
      }
      var t;
      t, r := ArmBootChainTxn(w.journal.txn);
    }

    /** Roll the journaled transaction back; an unreadable journal rolls back the recorded GUID. */
    method RollbackBootChain() returns (ok: bool)
      requires Valid()
      modifies this
      ensures Valid() && old(run) <= run
      ensures ok ==> w.journal == Record(RollbackTxn(old(w)).(phase := RolledBack)) && UndoneAs(w.journal.txn)
      ensures !ok ==> AlwaysRolledBack(w.journal) || JournalStill(|old(run)|, old(w.journal))
      ensures !ok && faults(old(clock)).applied ==> AlwaysRolledBack(w.journal)
      ensures w.guidFile == old(w.guidFile)
      ensures var txn := RollbackTxn(old(w));
              old(Obeys()) ==>
                && Obeys() && ok
                && w.store == Swept(old(w.store), txn.guid)
                && w.journal == Record(txn.(phase := RolledBack))
                && AllRollingTo(|old(run)|, txn, Swept(old(w.store), txn.guid))
    {
      var txn := RollbackTxn(w);
      EveryRunEndsGood(foreign, esp, origin, run);
      BlankIsNotForeign();
      var t;
      t, ok := RollbackBootChainTxn(txn);
    }

    /** The deployer has started: its one-shot was armed before the journal could say so. */
    method MarkChainBooted() returns (ok: bool)
      requires Valid() && JournalSays(w, Arming)
      modifies this
      ensures Valid() && run == old(run) + [Move(old(w), MarkBooted, w)]
      ensures w == if ok then old(w).(journal := Record(old(w).journal.txn.(phase := Committed))) else old(w)
      ensures old(Obeys()) ==> ok
    {
      ok := faults(clock).applied;
      var _ := Issue(MarkBooted);
    }

    /**
     What the recovery task does with the journal it finds when Windows starts. A
     rollback that cannot be confirmed leaves a journal that the next start rolls back. When
     the machine obeys, every instant of the recovery recovers to the same end.
     */
    method RecoverBootTxnAtStartup(deployerStarted: bool, ls: Lifecycle) returns (handled: bool, ok: bool)
      requires Valid()
      modifies this
      ensures Valid() && old(run) <= run
      ensures handled && ok ==> w.journal.Record? && UndoneAs(w.journal.txn)
      ensures handled && !ok ==> !w.journal.Absent? && BootTxnStartupAction(StartupTxn(w), deployerStarted, ls) == Rollback
      ensures handled && !ok && faults(old(clock)).applied ==> AlwaysRolledBack(w.journal)
      ensures handled <==>
                !old(w.journal).Absent? && !old(JournalSays(w, Committed)) && !old(JournalSays(w, RolledBack))
                && !(old(JournalSays(w, Arming)) && (deployerStarted || ls == Deploying || ls == Deployed || ls == Healthy))
      ensures !handled && !old(JournalSays(w, Arming)) ==> ok && w == old(w)
      ensures !handled && old(JournalSays(w, Arming)) ==>
                w == if ok then old(w).(journal := Record(old(w).journal.txn.(phase := Committed))) else old(w)
      ensures !(handled && ok) ==> w.guidFile == old(w.guidFile)
      ensures old(Obeys()) && handled ==> w.guidFile == Blank
      ensures handled && ok && old(w).journal.Record? ==> w.journal.txn == old(w).journal.txn.(phase := RolledBack)
      ensures handled && ok && old(w).journal.Unreadable? ==>
                w.journal.txn.guid == if old(w).guidFile.Guid? then old(w).guidFile else Blank
      ensures old(Obeys()) ==> ok && (w.store, w.journal) == Recovered(old(w), deployerStarted, ls)
      ensures old(Obeys()) ==> AllRecoverTo(|old(run)|, deployerStarted, ls, Recovered(old(w), deployerStarted, ls))
    {
      handled := !w.journal.Absent? && BootTxnStartupAction(StartupTxn(w), deployerStarted, ls) == Rollback;
      if handled {
        ok := RecoverByRollback(deployerStarted, ls);
      } else {
        ok := KeepOrMark(deployerStarted, ls);
      }
    }

    /** Startup finds nothing to roll back: an `arming` record becomes committed, any other is left alone. */
    method KeepOrMark(deployerStarted: bool, ls: Lifecycle) returns (ok: bool)
      requires Valid() && (w.journal.Absent? || BootTxnStartupAction(StartupTxn(w), deployerStarted, ls) != Rollback)
      modifies this
      ensures Valid() && old(run) <= run
      ensures !old(JournalSays(w, Arming)) ==> ok && w == old(w)
      ensures old(JournalSays(w, Arming)) ==>
                w == if ok then old(w).(journal := Record(old(w).journal.txn.(phase := Committed))) else old(w)
      ensures old(Obeys()) ==> ok && (w.store, w.journal) == Recovered(old(w), deployerStarted, ls)
      ensures old(Obeys()) ==> AllRecoverTo(|old(run)|, deployerStarted, ls, Recovered(old(w), deployerStarted, ls))
    {
      ok := true;
      if !w.journal.Absent? && BootTxnStartupAction(StartupTxn(w), deployerStarted, ls) == MarkCommitted {
        ok := MarkChainBooted();
      }
    }

    /** The rollback at startup; once it is confirmed, bcd-guid.txt is no longer needed. */
    method RecoverByRollback(deployerStarted: bool, ls: Lifecycle) returns (ok: bool)
      requires Valid()
      modifies this
      ensures Valid() && old(run) <= run
      ensures ok ==> w.journal == Record(RollbackTxn(old(w)).(phase := RolledBack)) && UndoneAs(w.journal.txn)
      ensures !ok ==> AlwaysRolledBack(w.journal) || JournalStill(|old(run)|, old(w.journal))
      ensures !ok && faults(old(clock)).applied ==> AlwaysRolledBack(w.journal)
      ensures var end := (Swept(old(w.store), RollbackTxn(old(w)).guid), Record(RollbackTxn(old(w)).(phase := RolledBack)));
              old(Obeys()) ==> ok && (w.store, w.journal) == end && AllRecoverTo(|old(run)|, deployerStarted, ls, end)
      ensures !ok ==> w.guidFile == old(w.guidFile)
      ensures old(Obeys()) ==> w.guidFile == Blank
    {
      ghost var obeys, txn, end := Obeys(), RollbackTxn(w), Swept(w.store, RollbackTxn(w).guid);
      ok := RollbackBootChain();
      if ok {
        BlankIsNotForeign();
        var _ := Issue(WriteGuidFile(Blank));
      }
      if obeys {
        forall i | |old(run)| <= i < |run|
          ensures Recovered(run[i].after, deployerStarted, ls) == (end, Record(txn.(phase := RolledBack)))
        {
          RollingRecovers(run[i].after, txn, end, deployerStarted, ls);
        }
      }
    }
  }
}
