/**
 What a boot chain must look like, which entries are wootc's, the order in which
 the protocol may issue commands, and what that order guarantees at every instant
 at which the power can fail.
 */
module BootChain {
  import opened Text
  import opened BootStore
  import EspPath

  // ---- observation -----------------------------------------------------------

  /** Every firmware entry described exactly "wootc" under a full GUID. */
  function DescribedIds(objs: map<Id, Entry>): set<Id> {
    set id | id in objs && id.Guid? && IsWootc(objs[id])
  }

  /** The entries that are wootc's: described so, or the journaled GUID (listed or not). */
  function WootcEntryIds(objs: map<Id, Entry>, guid: Id): set<Id> {
    DescribedIds(objs) + if guid.Guid? then {guid} else {}
  }

  datatype Problem =
    | NoStagedFiles | LoaderNotStaged | FileMissing(rel: string) | FileChanged(rel: string)
    | InvalidGuid | EntryMissing | WrongDescription | WrongPath | StaleEntry(id: Id)
    | InBootOrder | NotFirstInSequence | ArmedEarly
    | StillExists(id: Id) | StillInSequence(id: Id) | StillInOrder(id: Id)

  function EspChainProblems(efiPath: string, staged: map<string, string>, observed: map<string, string>): set<Problem> {
    if |staged| == 0 then {NoStagedFiles}
    else
      (if exists rel :: rel in staged && EspPath.Normalize(rel) == EspPath.Normalize(efiPath) then {} else {LoaderNotStaged})
      + (set rel | rel in staged && rel !in observed :: FileMissing(rel))
      + (set rel | rel in staged && rel in observed && !SameFold(observed[rel], staged[rel]) :: FileChanged(rel))
  }

  function EntryProblems(store: Store, txn: Txn): set<Problem> {
    if txn.guid !in store.objs then {EntryMissing}
    else
      (if IsWootc(store.objs[txn.guid]) then {} else {WrongDescription})
      + (if SameFold(store.objs[txn.guid].path, txn.efiPath) then {} else {WrongPath})
  }

  function BootChainProblems(store: Store, txn: Txn, observed: map<string, string>, wantArmed: bool): set<Problem> {
    if !txn.guid.Guid? then {InvalidGuid}
    else
      EntryProblems(store, txn)
      + (set id | id in DescribedIds(store.objs) && id != txn.guid :: StaleEntry(id))
      + (if txn.guid in store.displayorder then {InBootOrder} else {})
      + (if wantArmed then
           if |store.bootsequence| == 0 || store.bootsequence[0] != txn.guid then {NotFirstInSequence} else {}
         else if txn.guid in store.bootsequence then {ArmedEarly}
         else {})
      + EspChainProblems(txn.efiPath, txn.staged, observed)
  }

  function BootChainResidue(store: Store, guid: Id): set<Problem> {
    var ids := WootcEntryIds(store.objs, guid);
    (set id | id in ids && id in store.objs :: StillExists(id))
    + (set id | id in ids && id in store.bootsequence :: StillInSequence(id))
    + (set id | id in ids && id in store.displayorder :: StillInOrder(id))
  }

  // ---- what the observations mean --------------------------------------------

  /** Every staged file, the loader among them, has its recorded hash on the ESP. */
  ghost predicate EspChainIntact(efiPath: string, staged: map<string, string>, esp: map<string, string>) {
    && (exists rel :: rel in staged && EspPath.Normalize(rel) == EspPath.Normalize(efiPath))
    && (forall rel :: rel in staged ==> rel in esp && SameFold(esp[rel], staged[rel]))
  }

  /** The entry exists under a full GUID, and is described wootc in whatever letter case. */
  ghost predicate IsOurs(objs: map<Id, Entry>, id: Id) {
    id in objs && id.Guid? && SameFold(objs[id].description, "wootc")
  }

  lemma DescribedAreOurs(objs: map<Id, Entry>, g: Id)
    ensures forall id :: id in DescribedIds(objs) <==> IsOurs(objs, id)
    ensures DescribedIds(objs) == {} <==> forall id :: !IsOurs(objs, id)
    ensures DescribedIds(objs) == {g} <==> forall id :: IsOurs(objs, id) <==> id == g
  {
    assert forall id :: id in DescribedIds(objs) <==> IsOurs(objs, id);
    if forall id :: IsOurs(objs, id) <==> id == g {
      assert forall id :: id in DescribedIds(objs) <==> id in {g};
    }
  }

  /** The only wootc entry is the transaction's, it boots the staged loader, and no permanent order names it. */
  ghost predicate ChainBuilt(store: Store, esp: map<string, string>, txn: Txn) {
    && (forall id :: IsOurs(store.objs, id) <==> id == txn.guid)
    && txn.guid in store.objs && SameFold(store.objs[txn.guid].path, txn.efiPath)
    && txn.guid !in store.displayorder
    && EspChainIntact(txn.efiPath, txn.staged, esp)
  }

  ghost predicate Inert(store: Store, esp: map<string, string>, txn: Txn) {
    ChainBuilt(store, esp, txn) && txn.guid !in store.bootsequence
  }

  ghost predicate ArmedExactly(store: Store, esp: map<string, string>, txn: Txn) {
    ChainBuilt(store, esp, txn) && |store.bootsequence| > 0 && store.bootsequence[0] == txn.guid
  }

  /** No wootc entry exists, and the journaled GUID has no entry and is in neither list. */
  ghost predicate Clean(store: Store, guid: Id) {
    && (forall id :: !IsOurs(store.objs, id))
    && (guid.Guid? ==> Gone(store, guid))
  }

  /** The identifier has no entry and is in neither list. */
  ghost predicate Gone(store: Store, guid: Id) {
    guid !in store.objs && guid !in store.bootsequence && guid !in store.displayorder
  }

  /** What hashing the ESP can report: true hashes, perhaps not of every file. */
  ghost predicate TrueHashes(observed: map<string, string>, esp: map<string, string>) {
    forall rel :: rel in observed ==> rel in esp && observed[rel] == esp[rel]
  }

  lemma NoEspProblems(efiPath: string, staged: map<string, string>, observed: map<string, string>)
    ensures EspChainProblems(efiPath, staged, observed) == {} <==> EspChainIntact(efiPath, staged, observed)
  {
    var p := EspChainProblems(efiPath, staged, observed);
    if p == {} {
      forall rel | rel in staged
        ensures rel in observed && SameFold(observed[rel], staged[rel])
      {
        assert FileMissing(rel) !in p && FileChanged(rel) !in p;
      }
      assert LoaderNotStaged !in p && NoStagedFiles !in p;
    }
    if EspChainIntact(efiPath, staged, observed) {
      assert |staged| != 0;
    }
  }

  /** An empty problem list is exactly the intended chain, inert or armed. */
  lemma NoChainProblems(store: Store, txn: Txn, observed: map<string, string>, wantArmed: bool)
    ensures BootChainProblems(store, txn, observed, wantArmed) == {} <==>
            if wantArmed then ArmedExactly(store, observed, txn) else Inert(store, observed, txn)
  {
    NoEspProblems(txn.efiPath, txn.staged, observed);
    DescribedAreOurs(store.objs, txn.guid);
    if txn.guid.Guid? {
      var stale := set id | id in DescribedIds(store.objs) && id != txn.guid :: StaleEntry(id);
      forall id | id in DescribedIds(store.objs) && id != txn.guid
        ensures StaleEntry(id) in stale
      {
      }
      var p := BootChainProblems(store, txn, observed, wantArmed);
      assert EspChainProblems(txn.efiPath, txn.staged, observed) <= p && EntryProblems(store, txn) <= p && stale <= p;
      if p == {} {
        assert InBootOrder !in p && NotFirstInSequence !in p && ArmedEarly !in p;
        assert EntryMissing !in p && WrongDescription !in p && WrongPath !in p;
        assert DescribedIds(store.objs) == {txn.guid};
      }
    }
  }

  lemma HashesFromObservation(efiPath: string, staged: map<string, string>, observed: map<string, string>, esp: map<string, string>)
    requires TrueHashes(observed, esp) && EspChainIntact(efiPath, staged, observed)
    ensures EspChainIntact(efiPath, staged, esp)
  {
  }

  /** An empty residue is exactly a clean machine. */
  lemma NoResidue(store: Store, guid: Id)
    ensures BootChainResidue(store, guid) == {} <==> Clean(store, guid)
  {
    var p := BootChainResidue(store, guid);
    var ids := WootcEntryIds(store.objs, guid);
    DescribedAreOurs(store.objs, guid);
    forall id | id in ids
      ensures id in store.objs ==> StillExists(id) in p
      ensures id in store.bootsequence ==> StillInSequence(id) in p
      ensures id in store.displayorder ==> StillInOrder(id) in p
    {
    }
    if p == {} {
      assert forall id | id in ids :: StillExists(id) !in p && StillInSequence(id) !in p && StillInOrder(id) !in p;
    }
  }

  // ---- the sweep as one function ----------------------------------------------

  /** The store after every command of a sweep took effect. */
  function Swept(store: Store, guid: Id): Store {
    var ids := WootcEntryIds(store.objs, guid);
    Store(store.objs - ids, Drop(store.bootsequence, ids), Drop(store.displayorder, ids))
  }

  lemma SweptIsClean(store: Store, guid: Id)
    ensures Clean(Swept(store, guid), guid)
  {
    assert forall id :: IsOurs(store.objs, id) ==> id in WootcEntryIds(store.objs, guid);
  }

  /** A swept store is swept already. */
  lemma SweptIsStable(store: Store, guid: Id)
    requires Clean(store, guid)
    ensures Swept(store, guid) == store
  {
    var ids := WootcEntryIds(store.objs, guid);
    assert forall id :: id in DescribedIds(store.objs) ==> IsOurs(store.objs, id);
    DropNone(store.bootsequence, ids);
    DropNone(store.displayorder, ids);
  }

  /** A command that a sweep issues when every earlier one of the sweep took effect. */
  ghost predicate SweepCommand(store: Store, guid: Id, a: Action) {
    var ids := WootcEntryIds(store.objs, guid);
    match a
    case RemoveFromSequence(id) => id in ids
    case RemoveFromOrder(id) => id in ids
    case DeleteEntry(id) => id in ids && id !in store.bootsequence && id !in store.displayorder
    case ClearSequence => forall id :: id in store.bootsequence ==> id in ids
    case _ => false
  }

  /**
   One more command of a sweep does not change where the whole sweep ends, so a
   sweep cut anywhere and started again ends in the same store.
   */
  lemma SweepCommandKeepsOutcome(w: World, guid: Id, a: Action)
    requires SweepCommand(w.store, guid, a)
    ensures Swept(Apply(w, a).store, guid) == Swept(w.store, guid)
  {
    var s, t := w.store, Apply(w, a).store;
    var ids := WootcEntryIds(s.objs, guid);
    match a
    case RemoveFromSequence(id) =>
      DropTwice(s.bootsequence, {id}, ids);
      assert {id} + ids == ids;
    case RemoveFromOrder(id) =>
      DropTwice(s.displayorder, {id}, ids);
      assert {id} + ids == ids;
    case DeleteEntry(id) =>
      var rest := WootcEntryIds(t.objs, guid);
      assert rest + {id} == ids + {id} == ids;
      DropNone(s.bootsequence, {id});
      DropTwice(s.bootsequence, {id}, rest);
      DropNone(s.displayorder, {id});
      DropTwice(s.displayorder, {id}, rest);
      assert {id} + rest == ids;
      assert s.objs - {id} - rest == s.objs - ids;
    case ClearSequence =>
      DropAll(s.bootsequence, ids);
  }

  lemma {:induction false} DropAll(s: seq<Id>, ids: set<Id>)
    requires forall id :: id in s ==> id in ids
    ensures Drop(s, ids) == []
  {
    if s != [] {
      DropAll(s[1..], ids);
    }
  }

  // ---- the order of the protocol ----------------------------------------------

  /** The persisted journal record is in this phase. */
  ghost predicate JournalSays(w: World, phase: Phase) {
    w.journal.Record? && w.journal.txn.phase == phase
  }

  /**
   When the protocol may issue a command. `foreign` is any set of entries that are
   not wootc's; `esp` holds the true hashes of the files on the ESP.
   */
  ghost predicate Permitted(foreign: set<Id>, esp: map<string, string>, w: World, a: Action) {
    match a
    case RemoveFromSequence(id) => id !in foreign
    case RemoveFromOrder(id) => id !in foreign
    case DeleteEntry(id) => id !in foreign
    case ClearSequence => forall id :: id in w.store.bootsequence ==> id !in foreign
    case RefreshMenu => true
    case CopyBootManager(_, _) => JournalSays(w, CreatingEntry)
    case SetPath(id, _) => id in w.created
    case ArmFirst(id) => JournalSays(w, Arming) && w.journal.txn.guid == id
    case SaveJournal(txn) =>
      && txn.guid !in foreign
      && (txn.guid.Guid? ==> txn.guid.number < w.next)
      && (txn.phase.Prepared? ==> Inert(w.store, esp, txn))
      && (txn.phase.Committed? ==> ArmedExactly(w.store, esp, txn))
      && (txn.phase.RolledBack? ==> Clean(w.store, txn.guid))
    case MarkBooted => JournalSays(w, Arming)
    case WriteGuidFile(id) => id !in foreign && (id.Guid? ==> id.number < w.next)
  }

  /** t is w with one new entry, described "wootc", that the one-shot does not name. */
  ghost predicate FreshClone(w: World, t: World, guid: Id) {
    && guid.Guid? && guid !in w.store.bootsequence && guid !in w.store.objs
    && t.store.objs == w.store.objs[guid := Entry("wootc", InheritedPath(w.store))]
    && t.store.bootsequence == w.store.bootsequence
    && t.created == w.created + {guid}
  }

  /** One command was issued when permitted; it took effect or did nothing. */
  datatype Move = Move(before: World, act: Action, after: World)

  ghost predicate LegalMove(foreign: set<Id>, esp: map<string, string>, m: Move) {
    && Permitted(foreign, esp, m.before, m.act)
    && (m.after == m.before || m.after == Apply(m.before, m.act))
  }

  /** A history of commands since `origin`, each starting where the one before it ended. */
  ghost predicate LegalRun(foreign: set<Id>, esp: map<string, string>, origin: World, run: seq<Move>) {
    && (run != [] ==> run[0].before == origin)
    && (forall i :: 0 <= i < |run| ==> LegalMove(foreign, esp, run[i]))
    && (forall i :: 0 < i < |run| ==> run[i].before == run[i - 1].after)
  }

  lemma ExtendRun(foreign: set<Id>, esp: map<string, string>, origin: World, run: seq<Move>, m: Move)
    requires LegalRun(foreign, esp, origin, run) && LegalMove(foreign, esp, m) && m.before == EndOf(origin, run)
    ensures LegalRun(foreign, esp, origin, run + [m]) && EndOf(origin, run + [m]) == m.after
  {
  }

  function EndOf(origin: World, run: seq<Move>): World {
    if run == [] then origin else run[|run| - 1].after
  }

  // ---- what holds at every instant ---------------------------------------------

  ghost predicate Given(w: World, id: Id) {
    id.Guid? ==> id.number < w.next
  }

  /** Numbers not yet given out by the firmware occur nowhere. */
  ghost predicate NumbersGiven(w: World) {
    && (forall id :: id in w.store.objs ==> Given(w, id))
    && (forall id :: id in w.store.bootsequence ==> Given(w, id))
    && (forall id :: id in w.store.displayorder ==> Given(w, id))
    && (forall id :: id in w.created ==> Given(w, id))
    && Given(w, w.guidFile)
    && (w.journal.Record? ==> Given(w, w.journal.txn.guid))
  }

  /** The foreign entries really are foreign: not described wootc, not recorded, not created here. */
  ghost predicate ForeignApart(foreign: set<Id>, w: World) {
    && (forall id :: id in foreign ==> id != Blank && Given(w, id))
    && (forall id :: id in foreign ==> !IsOurs(w.store.objs, id))
    && foreign !! w.created
    && w.guidFile !in foreign
    && (w.journal.Record? ==> w.journal.txn.guid !in foreign)
  }

  /** Entries of this transaction keep the description they were created with. */
  ghost predicate CreatedAreWootc(w: World) {
    && (forall g :: g in w.created ==> g.Guid? && (g in w.store.objs ==> IsWootc(w.store.objs[g])))
    && (!w.journal.Record? ==> w.created == {})
  }

  /**
   Write-ahead arming: an existing entry of this transaction is in the one-shot
   only after an `arming` record named it, and never under a record that calls the
   chain untouched, inert or gone.
   */
  ghost predicate WriteAhead(w: World) {
    && (JournalSays(w, Arming) ==> w.journal.txn.guid in w.armed)
    && forall g :: g in w.created && g in w.store.objs && g in w.store.bootsequence ==>
      && g in w.armed
      && !JournalSays(w, Begun) && !JournalSays(w, Prepared) && !JournalSays(w, RolledBack)
  }

  /** A `rolled-back` record is true. */
  ghost predicate RolledBackIsClean(w: World) {
    JournalSays(w, RolledBack) ==> Clean(w.store, w.journal.txn.guid)
  }

  ghost predicate Good(foreign: set<Id>, w: World) {
    && NumbersGiven(w)
    && ForeignApart(foreign, w)
    && CreatedAreWootc(w)
    && WriteAhead(w)
    && RolledBackIsClean(w)
  }

  /** Foreign entries are as they were, and foreign ids keep their places relative to each other. */
  ghost predicate Framed(foreign: set<Id>, s: Store, t: Store) {
    && (forall id :: id in foreign ==> (id in s.objs <==> id in t.objs))
    && (forall id :: id in foreign && id in s.objs && id in t.objs ==> t.objs[id] == s.objs[id])
    && Only(t.bootsequence, foreign) == Only(s.bootsequence, foreign)
    && Only(t.displayorder, foreign) == Only(s.displayorder, foreign)
  }

  lemma SaveKeepsGood(foreign: set<Id>, esp: map<string, string>, w: World, txn: Txn)
    requires Good(foreign, w) && Permitted(foreign, esp, w, SaveJournal(txn))
    ensures Good(foreign, Apply(w, SaveJournal(txn)))
  {
    if txn.phase.Prepared? {
      forall g | g in w.created && g in w.store.objs
        ensures g !in w.store.bootsequence
      {
        assert IsOurs(w.store.objs, g);
      }
    }
    if txn.phase.RolledBack? {
      CleanHasNoCreated(w, txn.guid, w.store);
    }
  }

  lemma CopyKeepsGood(foreign: set<Id>, esp: map<string, string>, w: World, listed: bool, slot: nat)
    requires Good(foreign, w) && Permitted(foreign, esp, w, CopyBootManager(listed, slot))
    ensures Good(foreign, Apply(w, CopyBootManager(listed, slot)))
  {
    assert Guid(w.next) !in foreign && Guid(w.next) !in w.store.bootsequence;
    InsertElements(w.store.displayorder, slot, Guid(w.next));
  }

  lemma PermittedKeepsGood(foreign: set<Id>, esp: map<string, string>, w: World, a: Action)
    requires Good(foreign, w) && Permitted(foreign, esp, w, a)
    ensures Good(foreign, Apply(w, a))
  {
    var t := Apply(w, a);
    match a
    case CopyBootManager(listed, slot) => CopyKeepsGood(foreign, esp, w, listed, slot);
    case SaveJournal(txn) => SaveKeepsGood(foreign, esp, w, txn);
    case SetPath(id, path) =>
      assert forall x :: IsOurs(t.store.objs, x) <==> IsOurs(w.store.objs, x);
    case RemoveFromSequence(id) =>
    case RemoveFromOrder(id) =>
    case DeleteEntry(id) =>
      assert forall x :: IsOurs(t.store.objs, x) ==> IsOurs(w.store.objs, x);
    case ClearSequence =>
    case RefreshMenu =>
    case ArmFirst(id) =>
    case MarkBooted =>
    case WriteGuidFile(id) =>
  }

  lemma InsertElements(s: seq<Id>, slot: nat, g: Id)
    ensures forall id :: id in Insert(s, slot, g) <==> id in s || id == g
  {
  }

  lemma PermittedKeepsFrame(foreign: set<Id>, esp: map<string, string>, w: World, a: Action)
    requires Good(foreign, w) && Permitted(foreign, esp, w, a)
    ensures Framed(foreign, w.store, Apply(w, a).store)
  {
    var s := w.store;
    match a
    case RemoveFromSequence(id) => OnlyAfterDrop(s.bootsequence, {id}, foreign);
    case RemoveFromOrder(id) => OnlyAfterDrop(s.displayorder, {id}, foreign);
    case DeleteEntry(id) =>
    case ClearSequence => OnlyNone(s.bootsequence, foreign);
    case CopyBootManager(listed, slot) =>
      assert Guid(w.next) !in foreign;
      OnlyAfterInsert(s.displayorder, slot, Guid(w.next), foreign);
    case SetPath(id, path) =>
    case ArmFirst(id) =>
      OnlyConcat([id], Drop(s.bootsequence, {id}), foreign);
      OnlyAfterDrop(s.bootsequence, {id}, foreign);
    case RefreshMenu =>
    case SaveJournal(txn) =>
    case MarkBooted =>
    case WriteGuidFile(id) =>
  }

  lemma FrameTransitive(foreign: set<Id>, a: Store, b: Store, c: Store)
    requires Framed(foreign, a, b) && Framed(foreign, b, c)
    ensures Framed(foreign, a, c)
  {
  }

  lemma LegalMoveKeeps(foreign: set<Id>, esp: map<string, string>, m: Move)
    requires LegalMove(foreign, esp, m) && Good(foreign, m.before)
    ensures Good(foreign, m.after) && Framed(foreign, m.before.store, m.after.store)
  {
    PermittedKeepsGood(foreign, esp, m.before, m.act);
    PermittedKeepsFrame(foreign, esp, m.before, m.act);
  }

  /** The end of every run, which is every instant at which the power can fail. */
  lemma {:induction false} EveryRunEndsGood(foreign: set<Id>, esp: map<string, string>, origin: World, run: seq<Move>)
    requires LegalRun(foreign, esp, origin, run) && Good(foreign, origin)
    ensures Good(foreign, EndOf(origin, run)) && Framed(foreign, origin.store, EndOf(origin, run).store)
  {
    if run != [] {
      var init, m := run[..|run| - 1], run[|run| - 1];
      EveryRunEndsGood(foreign, esp, origin, init);
      assert m.before == EndOf(origin, init);
      LegalMoveKeeps(foreign, esp, m);
      FrameTransitive(foreign, origin.store, m.before.store, m.after.store);
    }
  }

  /** The journal record was saved in this phase, and reached the disk. */
  ghost predicate Saved(m: Move, phase: Phase) {
    m.act.SaveJournal? && m.act.txn.phase == phase && m.after == Apply(m.before, m.act)
  }

  /** Command i journaled `arming` for g, and no `begun` record has been saved since. */
  ghost predicate ArmingSavedAt(run: seq<Move>, g: Id, i: nat) {
    && i < |run| && Saved(run[i], Arming) && run[i].act.txn.guid == g
    && forall j :: i < j < |run| ==> !Saved(run[j], Begun)
  }

  /** The history holds an `arming` record for g that reached the disk, since the last `begun` record did. */
  ghost predicate ArmingJournaled(run: seq<Move>, g: Id) {
    exists i: nat :: ArmingSavedAt(run, g, i)
  }

  lemma {:induction false} ArmedIdsWereJournaled(foreign: set<Id>, esp: map<string, string>, origin: World, run: seq<Move>, g: Id)
    requires LegalRun(foreign, esp, origin, run) && origin.armed == {}
    ensures g in EndOf(origin, run).armed ==> ArmingJournaled(run, g)
  {
    if run != [] {
      var init, m := run[..|run| - 1], run[|run| - 1];
      ArmedIdsWereJournaled(foreign, esp, origin, init, g);
      assert m == run[|run| - 1] && LegalMove(foreign, esp, m) && m.before == EndOf(origin, init);
      if g in m.after.armed && g in m.before.armed {
        var i: nat :| ArmingSavedAt(init, g, i);
        assert forall j :: i <= j < |init| ==> run[j] == init[j];
        assert ArmingSavedAt(run, g, i);
      } else if g in m.after.armed {
        assert ArmingSavedAt(run, g, |run| - 1);
      }
    }
  }

  /**
   Write-ahead over whole runs: an existing entry of this transaction is armed only
   if a command of the history journaled `arming` for that very entry after the last
   `begun` record, and the journal on disk never calls such a chain begun, prepared or
   rolled back.
   */
  lemma ArmedEntriesWereJournaled(foreign: set<Id>, esp: map<string, string>, origin: World, run: seq<Move>, g: Id)
    requires LegalRun(foreign, esp, origin, run) && Good(foreign, origin) && origin.armed == {}
    ensures var w := EndOf(origin, run);
            g in w.created && g in w.store.objs && g in w.store.bootsequence ==>
              ArmingJournaled(run, g) && !JournalSays(w, Begun) && !JournalSays(w, Prepared) && !JournalSays(w, RolledBack)
  {
    EveryRunEndsGood(foreign, esp, origin, run);
    ArmedIdsWereJournaled(foreign, esp, origin, run, g);
  }

  // ---- startup recovery ---------------------------------------------------------

  datatype StartupAction = Keep | Rollback | MarkCommitted

  datatype Lifecycle = Staged | Armed | Deploying | Deployed | Healthy | Failed | OtherState

  function BootTxnStartupAction(txn: Txn, deployerStarted: bool, ls: Lifecycle): StartupAction {
    match txn.phase
    case Committed => Keep
    case RolledBack => Keep
    case Arming =>
      if deployerStarted || ls.Deploying? || ls.Deployed? || ls.Healthy? then MarkCommitted else Rollback
    case _ => Rollback
  }

  /** A build is in progress, and startup recovery rolls it back whatever has run since. */
  ghost predicate Building(w: World) {
    JournalSays(w, Begun) || JournalSays(w, CreatingEntry) || JournalSays(w, EntryCreated)
  }

  /** Startup recovery rolls this journal back, whatever else it finds. */
  ghost predicate AlwaysRolledBack(j: Journal) {
    j.Record? && forall started, ls :: BootTxnStartupAction(j.txn, started, ls) == Rollback
  }

  /** Startup recovery rolls this journal back unless the deployer has started. */
  ghost predicate RolledBackUnlessStarted(j: Journal) {
    j.Record? && BootTxnStartupAction(j.txn, false, Staged) == Rollback
  }

  /** The record a rollback works on; without a readable journal it knows the recorded GUID only. */
  function RollbackTxn(w: World): Txn {
    if w.journal.Record? then w.journal.txn
    else EMPTY_TXN.(guid := if w.guidFile.Guid? then w.guidFile else Blank)
  }

  function StartupTxn(w: World): Txn {
    if w.journal.Record? then w.journal.txn else EMPTY_TXN
  }

  /** The store and journal that startup recovery leaves when the firmware and the disk obey. */
  function Recovered(w: World, deployerStarted: bool, ls: Lifecycle): (Store, Journal) {
    if w.journal.Absent? then (w.store, w.journal)
    else
      match BootTxnStartupAction(StartupTxn(w), deployerStarted, ls)
      case Keep => (w.store, w.journal)
      case MarkCommitted => (w.store, Record(StartupTxn(w).(phase := Committed)))
      case Rollback =>
        var txn := RollbackTxn(w);
        (Swept(w.store, txn.guid), Record(txn.(phase := RolledBack)))
  }

  /** An instant inside an obeyed rollback of txn: sweeping on ends in the store `end`, or has ended there. */
  ghost predicate RollingTo(x: World, txn: Txn, end: Store) {
    || (x.journal == Record(txn.(phase := RollingBack)) && Swept(x.store, txn.guid) == end)
    || (x.journal == Record(txn.(phase := RolledBack)) && x.store == end)
  }

  lemma RollingRecovers(x: World, txn: Txn, end: Store, deployerStarted: bool, ls: Lifecycle)
    requires RollingTo(x, txn, end)
    ensures Recovered(x, deployerStarted, ls) == (end, Record(txn.(phase := RolledBack)))
  {
  }

  /** Settled: no transaction, a committed one, or one that is rolled back and has left nothing. */
  ghost predicate Settled(store: Store, journal: Journal) {
    match journal
    case Absent => true
    case Unreadable => false
    case Record(txn) => txn.phase.Committed? || (txn.phase.RolledBack? && Clean(store, txn.guid))
  }

  lemma SweepIsFramed(foreign: set<Id>, store: Store, guid: Id)
    requires foreign !! WootcEntryIds(store.objs, guid)
    ensures Framed(foreign, store, Swept(store, guid))
  {
    var ids := WootcEntryIds(store.objs, guid);
    OnlyAfterDrop(store.bootsequence, ids, foreign);
    OnlyAfterDrop(store.displayorder, ids, foreign);
  }

  lemma CleanHasNoCreated(w: World, guid: Id, t: Store)
    requires CreatedAreWootc(w) && Clean(t, guid)
    requires forall g :: g in t.objs ==> g in w.store.objs && t.objs[g] == w.store.objs[g]
    ensures forall g :: g in w.created ==> g !in t.objs
  {
    forall g | g in w.created
      ensures g !in t.objs
    {
      assert !IsOurs(t.objs, g);
    }
  }

  /** One undisturbed startup recovery of a good machine. */
  lemma GoodIsRecovered(foreign: set<Id>, w: World, deployerStarted: bool, ls: Lifecycle)
    requires Good(foreign, w)
    ensures var end := Recovered(w, deployerStarted, ls);
            && Settled(end.0, end.1)
            && Framed(foreign, w.store, end.0)
            && (end.1.Absent? ==> w.created == {} && end.0 == w.store)
            && (end.1.Record? && end.1.txn.phase.RolledBack? ==> forall g :: g in w.created ==> g !in end.0.objs)
  {
    var end := Recovered(w, deployerStarted, ls);
    if end.1.Record? && end.1.txn.phase.RolledBack? {
      var guid := end.1.txn.guid;
      SweptIsClean(w.store, guid);
      SweepIsFramed(foreign, w.store, guid);
      CleanHasNoCreated(w, guid, end.0);
    }
  }

  /**
   Crash recovery converges: from the state after any prefix of any run, one
   undisturbed startup recovery ends committed or rolled back and clean (a machine
   that never had a journal has no entry of a transaction), and another one
   changes nothing.
   */
  lemma RecoveryConverges(foreign: set<Id>, esp: map<string, string>, origin: World, run: seq<Move>,
                          deployerStarted: bool, ls: Lifecycle)
    requires LegalRun(foreign, esp, origin, run) && Good(foreign, origin)
    ensures var crash := EndOf(origin, run);
            var end := Recovered(crash, deployerStarted, ls);
            && Settled(end.0, end.1)
            && Framed(foreign, origin.store, end.0)
            && (end.1.Absent? ==> crash.created == {} && end.0 == crash.store)
            && (end.1.Record? && end.1.txn.phase.RolledBack? ==>
                  forall g :: g in crash.created ==> g !in end.0.objs)
            && Recovered(crash.(store := end.0, journal := end.1), deployerStarted, ls) == end
  {
    EveryRunEndsGood(foreign, esp, origin, run);
    var crash := EndOf(origin, run);
    GoodIsRecovered(foreign, crash, deployerStarted, ls);
    FrameTransitive(foreign, origin.store, crash.store, Recovered(crash, deployerStarted, ls).0);
  }
}
