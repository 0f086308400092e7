/**
 Putting Windows back in charge of the boot: observe, plan, act, observe again. The
 plan touches only entries that are provably the product's.
 */
module BootRepair {
  import opened Text
  import opened BootStore
  import EspPath

  datatype State = WindowsOnly | OneShotArmed | WootcDefault | WootcListed | ForeignNext | Unknown

  datatype Advice = NoAction | RestoreWindows | RepairBoot | Manual

  /**
   The evidence of one inspection. `firmware` is None when the boot configuration or
   its boot manager object could not be read; the two recorded identifiers are Blank
   when not recorded; `staged` and `claimed` are the ESP files of the install record
   and of the ownership manifest.
   */
  datatype Observation = Observation(
    firmware: Option<Store>, armedGuid: Id, recordedGuid: Id, armedPresent: bool, armedUnreadable: bool,
    espFound: bool, manifestTrusted: bool, staged: set<string>, claimed: set<string>, deployed: bool)

  datatype Report = Report(
    state: State, doubtful: bool, bootsequence: seq<Id>, displayorder: seq<Id>, owned: set<Id>,
    canRestore: bool, canRepair: bool, advice: Advice)

  datatype Command = ClearNext | Unlist(id: Id) | ListFirst(id: Id)

  // ---- the plan ----------------------------------------------------------------------

  /** Entries whose description is exactly the product's name. */
  function OwnedEntries(objs: map<Id, Entry>): set<Id> {
    set id | id in objs && id != Blank && objs[id].description == "wootc"
  }

  /** A recorded identifier now belongs to someone else. */
  predicate Collides(objs: map<Id, Entry>, recorded: Id) {
    recorded != Blank && recorded in objs && objs[recorded].description != "wootc"
  }

  predicate RecordsConflict(obs: Observation, objs: map<Id, Entry>) {
    || Collides(objs, obs.armedGuid) || Collides(objs, obs.recordedGuid)
    || (obs.armedGuid != Blank && obs.recordedGuid != Blank && obs.armedGuid != obs.recordedGuid)
  }

  predicate Foreign(q: seq<Id>, owned: set<Id>) {
    exists id :: id in q && id !in owned
  }

  predicate Lists(q: seq<Id>, owned: set<Id>) {
    exists id :: id in q && id in owned
  }

  /** The boot reaches an owned entry before it reaches Windows. */
  predicate Ahead(order: seq<Id>, owned: set<Id>) {
    exists i :: 0 <= i < |order| && order[i] in owned && BOOT_MANAGER !in order[..i + 1]
  }

  function StateOf(s: Store, owned: set<Id>): State {
    if Foreign(s.bootsequence, owned) then ForeignNext
    else if s.bootsequence != [] then OneShotArmed
    else if Ahead(s.displayorder, owned) then WootcDefault
    else if Lists(s.displayorder, owned) then WootcListed
    else WindowsOnly
  }

  /** A file of the install record that the manifest does not claim. */
  predicate Unclaimed(obs: Observation) {
    exists f :: f in obs.staged && EspPath.Normalize(f) !in (set c | c in obs.claimed :: EspPath.Normalize(c))
  }

  predicate EspOk(obs: Observation) {
    obs.espFound && obs.manifestTrusted
  }

  /** Something claims to be the product's but cannot be proven to be. */
  predicate Doubtful(obs: Observation, objs: map<Id, Entry>) {
    || obs.armedUnreadable || RecordsConflict(obs, objs)
    || (obs.espFound && !obs.manifestTrusted)
    || (EspOk(obs) && obs.armedPresent && Unclaimed(obs))
  }

  /** The boot entries are attributable, Windows is there, and the next boot is nobody else's. */
  predicate Trusted(obs: Observation, s: Store) {
    !RecordsConflict(obs, s.objs) && BOOT_MANAGER in s.objs && !Foreign(s.bootsequence, OwnedEntries(s.objs))
  }

  predicate CanRestore(obs: Observation, s: Store) {
    && Trusted(obs, s)
    && (s.bootsequence != [] || Lists(s.displayorder, OwnedEntries(s.objs)) || BOOT_MANAGER !in s.displayorder)
  }

  /** Repair stages files again: it needs the install record, a system not yet deployed, and no doubt at all. */
  predicate CanRepair(obs: Observation, s: Store) {
    Trusted(obs, s) && !Doubtful(obs, s.objs) && obs.armedPresent && !obs.deployed && EspOk(obs)
  }

  function Plan(obs: Observation): Report {
    match obs.firmware
    case None => Report(Unknown, obs.armedUnreadable, [], [], {}, false, false, Manual)
    case Some(s) =>
      var owned := OwnedEntries(s.objs);
      var state, doubtful := StateOf(s, owned), Doubtful(obs, s.objs);
      Report(
        state, doubtful, s.bootsequence, s.displayorder, owned, CanRestore(obs, s), CanRepair(obs, s),
        if CanRestore(obs, s) then RestoreWindows
        else if state == WindowsOnly && BOOT_MANAGER in s.displayorder && !doubtful then NoAction
        else if CanRepair(obs, s) then RepairBoot
        else Manual)
  }

  method IndexOf(q: seq<Id>, id: Id) returns (k: int)
    ensures id in q ==> 0 <= k < |q| && q[k] == id && id !in q[..k]
    ensures id !in q ==> k == -1
  {
    for i := 0 to |q|
      invariant id !in q[..i]
    {
      if q[i] == id {
        return i;
      }
    }
    k := -1;
  }

  method FirstOwned(q: seq<Id>, owned: set<Id>) returns (k: nat)
    ensures k <= |q| && !Lists(q[..k], owned)
    ensures k < |q| ==> q[k] in owned
  {
    k := 0;
    while k < |q| && q[k] !in owned
      invariant k <= |q| && !Lists(q[..k], owned)
    {
      k := k + 1;
    }
  }

  lemma AheadIff(order: seq<Id>, owned: set<Id>, first: nat, winIdx: int)
    requires first < |order| && order[first] in owned && !Lists(order[..first], owned)
    requires if BOOT_MANAGER in order then 0 <= winIdx < |order| && order[winIdx] == BOOT_MANAGER && BOOT_MANAGER !in order[..winIdx]
             else winIdx == -1
    ensures Ahead(order, owned) <==> winIdx < 0 || first < winIdx
  {
    if first < winIdx {
      assert order[..first + 1] == order[..winIdx][..first + 1];
    }
    forall j | 0 <= j < first
      ensures order[j] !in owned
    {
      assert order[j] == order[..first][j];
    }
    forall i | 0 <= i < |order| && order[i] in owned
      ensures first <= i && (0 <= winIdx <= i ==> BOOT_MANAGER in order[..i + 1])
    {
      assert 0 <= winIdx <= i ==> order[..i + 1][winIdx] == BOOT_MANAGER;
    }
  }

  /** Whether an owned entry is listed, and whether one comes before Windows. */
  method PlaceInOrder(order: seq<Id>, owned: set<Id>) returns (listed: bool, ahead: bool, winIdx: int)
    ensures listed == Lists(order, owned) && ahead == Ahead(order, owned)
    ensures winIdx < 0 <==> BOOT_MANAGER !in order
  {
    winIdx := IndexOf(order, BOOT_MANAGER);
    var first := FirstOwned(order, owned);
    assert order[..|order|] == order;
    listed := first < |order|;
    ahead := listed && (winIdx < 0 || first < winIdx);
    if listed {
      AheadIff(order, owned, first, winIdx);
    }
  }

  /** Whether the next boot goes to an entry that is not owned. */
  method ForeignNextBoot(q: seq<Id>, owned: set<Id>) returns (foreign: bool)
    ensures foreign == Foreign(q, owned)
  {
    foreign := false;
    for i := 0 to |q|
      invariant foreign == Foreign(q[..i], owned)
    {
      assert q[..i + 1] == q[..i] + [q[i]];
      if q[i] !in owned {
        foreign := true;
      }
    }
    assert q[..|q|] == q;
  }

  /** Whether the ESP can be verified, and whether it leaves a doubt about ownership. */
  method InspectEsp(obs: Observation) returns (espOk: bool, doubt: bool)
    ensures espOk == EspOk(obs)
    ensures doubt <==> (obs.espFound && !obs.manifestTrusted) || (EspOk(obs) && obs.armedPresent && Unclaimed(obs))
  {
    if !obs.espFound {
      return false, false;
    }
    if !obs.manifestTrusted {
      return false, true;
    }
    espOk, doubt := true, false;
    if obs.armedPresent {
      var claimed := set c | c in obs.claimed :: EspPath.Normalize(c);
      var todo := obs.staged;
      while todo != {}
        invariant todo <= obs.staged
        invariant doubt <==> exists f :: f in obs.staged - todo && EspPath.Normalize(f) !in claimed
        decreases todo
      {
        var f :| f in todo;
        if EspPath.Normalize(f) !in claimed {
          doubt := true;
        }
        todo := todo - {f};
      }
    }
  }

  method PlanBootRepair(obs: Observation) returns (r: Report)
    ensures r == Plan(obs)
  {
    if obs.firmware.None? {
      return Report(Unknown, obs.armedUnreadable, [], [], {}, false, false, Manual);
    }
    var s := obs.firmware.value;
    var owned := OwnedEntries(s.objs);
    var conflict := Collides(s.objs, obs.armedGuid) || Collides(s.objs, obs.recordedGuid);
    if obs.armedGuid != Blank && obs.recordedGuid != Blank && obs.armedGuid != obs.recordedGuid {
      conflict := true;
    }
    var foreignNext := ForeignNextBoot(s.bootsequence, owned);
    var listed, ahead, winIdx := PlaceInOrder(s.displayorder, owned);
    var state :=
      if foreignNext then ForeignNext
      else if |s.bootsequence| > 0 then OneShotArmed
      else if ahead then WootcDefault
      else if listed then WootcListed
      else WindowsOnly;
    var espOk, espDoubt := InspectEsp(obs);
    var doubtful := conflict || obs.armedUnreadable || espDoubt;
    var trusted := !conflict && BOOT_MANAGER in s.objs && !foreignNext;
    var canRestore := trusted && (|s.bootsequence| > 0 || listed || winIdx < 0);
    var canRepair := trusted && !doubtful && obs.armedPresent && !obs.deployed && espOk;
    var advice :=
      if canRestore then RestoreWindows
      else if state == WindowsOnly && winIdx >= 0 && !doubtful then NoAction
      else if canRepair then RepairBoot
      else Manual;
    r := Report(state, doubtful, s.bootsequence, s.displayorder, owned, canRestore, canRepair, advice);
  }

  // ---- what the plan says -------------------------------------------------------------

  /** The entry is the product's: described exactly so, under whatever identifier. */
  ghost predicate IsOwned(s: Store, id: Id) {
    id in s.objs && id != Blank && s.objs[id].description == "wootc"
  }

  /** The recorded identifiers agree, and neither names an entry of somebody else. */
  ghost predicate Attributable(obs: Observation, s: Store) {
    && (forall id :: id in {obs.armedGuid, obs.recordedGuid} && id != Blank && id in s.objs ==> IsOwned(s, id))
    && (obs.armedGuid != Blank && obs.recordedGuid != Blank ==> obs.armedGuid == obs.recordedGuid)
  }

  ghost predicate NextBootIsOurs(s: Store) {
    forall id :: id in s.bootsequence ==> IsOwned(s, id)
  }

  ghost predicate ListsOurs(s: Store) {
    exists id :: id in s.displayorder && IsOwned(s, id)
  }

  /** In the permanent order one of our entries comes before every mention of Windows. */
  ghost predicate OursBootsFirst(s: Store) {
    exists i :: 0 <= i < |s.displayorder| && IsOwned(s, s.displayorder[i])
                && forall k :: 0 <= k <= i ==> s.displayorder[k] != BOOT_MANAGER
  }

  /** Some staged file is claimed under none of its spellings. */
  ghost predicate FileUnclaimed(obs: Observation) {
    exists f :: f in obs.staged && forall c :: c in obs.claimed ==> EspPath.Normalize(c) != EspPath.Normalize(f)
  }

  lemma OwnedIff(s: Store)
    ensures forall id :: id in OwnedEntries(s.objs) <==> IsOwned(s, id)
  {
  }

  lemma UnclaimedIff(obs: Observation)
    ensures Unclaimed(obs) <==> FileUnclaimed(obs)
  {
    var claimed := set c | c in obs.claimed :: EspPath.Normalize(c);
    forall f
      ensures EspPath.Normalize(f) !in claimed <==> forall c :: c in obs.claimed ==> EspPath.Normalize(c) != EspPath.Normalize(f)
    {
    }
  }

  lemma AheadSays(s: Store)
    ensures Ahead(s.displayorder, OwnedEntries(s.objs)) <==> OursBootsFirst(s)
  {
    var order := s.displayorder;
    forall i | 0 <= i < |order| && order[i] in OwnedEntries(s.objs)
      ensures BOOT_MANAGER !in order[..i + 1] <==> forall k :: 0 <= k <= i ==> order[k] != BOOT_MANAGER
    {
      assert forall k :: 0 <= k <= i ==> order[..i + 1][k] == order[k];
    }
    OwnedIff(s);
  }

  /** The state of the boot, as the two lists show it. */
  lemma StateSays(obs: Observation, s: Store)
    requires obs.firmware == Some(s)
    ensures Plan(obs).state ==
              if !NextBootIsOurs(s) then ForeignNext
              else if s.bootsequence != [] then OneShotArmed
              else if OursBootsFirst(s) then WootcDefault
              else if ListsOurs(s) then WootcListed
              else WindowsOnly
  {
    OwnedIff(s);
    AheadSays(s);
  }

  lemma ConflictSays(obs: Observation, s: Store)
    ensures RecordsConflict(obs, s.objs) <==> !Attributable(obs, s)
  {
    assert obs.armedGuid in {obs.armedGuid, obs.recordedGuid} && obs.recordedGuid in {obs.armedGuid, obs.recordedGuid};
  }

  /**
   Windows can be put back exactly when the entries are attributable, Windows exists, the
   next boot is ours, and something of ours is in the way or Windows is not listed. The
   boot can be repaired exactly when besides the install record and the ESP are beyond doubt.
   */
  lemma OffersSay(obs: Observation, s: Store)
    requires obs.firmware == Some(s)
    ensures Plan(obs).canRestore <==>
              && Attributable(obs, s) && BOOT_MANAGER in s.objs && NextBootIsOurs(s)
              && (s.bootsequence != [] || ListsOurs(s) || BOOT_MANAGER !in s.displayorder)
    ensures Plan(obs).canRepair <==>
              && Attributable(obs, s) && BOOT_MANAGER in s.objs && NextBootIsOurs(s)
              && obs.armedPresent && !obs.armedUnreadable && !obs.deployed
              && obs.espFound && obs.manifestTrusted && !FileUnclaimed(obs)
    ensures Plan(obs).doubtful <==>
              || obs.armedUnreadable || !Attributable(obs, s) || (obs.espFound && !obs.manifestTrusted)
              || (obs.espFound && obs.armedPresent && FileUnclaimed(obs))
  {
    OwnedIff(s);
    ConflictSays(obs, s);
    UnclaimedIff(obs);
  }

  /** What is recommended is offered; nothing is recommended only where Windows alone boots and there is no doubt. */
  lemma AdviceSays(obs: Observation)
    ensures var r := Plan(obs);
            && (r.advice == RestoreWindows <==> r.canRestore)
            && (r.advice == RepairBoot ==> r.canRepair)
            && (r.advice == NoAction <==> !r.canRestore && !r.doubtful && VerifyWindowsOnly(r))
            && (r.advice == Manual ==> !r.canRestore && !r.canRepair)
    ensures obs.firmware.None? ==> Plan(obs).state == Unknown && Plan(obs).advice == Manual && !Plan(obs).canRestore && !Plan(obs).canRepair
  {
  }

  // ---- the commands --------------------------------------------------------------------

  function Unlists(q: seq<Id>): seq<Command> {
    if q == [] then [] else [Unlist(q[0])] + Unlists(q[1..])
  }

  /** Clear a one-shot of ours, take our entries out of the order, put Windows in if it is missing. */
  function Commands(r: Report): Option<seq<Command>> {
    if !r.canRestore || Foreign(r.bootsequence, r.owned) then None
    else Some((if r.bootsequence != [] then [ClearNext] else [])
              + Unlists(Only(r.displayorder, r.owned))
              + (if BOOT_MANAGER !in r.displayorder then [ListFirst(BOOT_MANAGER)] else []))
  }

  lemma {:induction false} UnlistsGrow(q: seq<Id>, id: Id)
    ensures Unlists(q + [id]) == Unlists(q) + [Unlist(id)]
  {
    if q != [] {
      UnlistsGrow(q[1..], id);
      assert (q + [id])[1..] == q[1..] + [id];
    }
  }

  lemma OnlyGrows(q: seq<Id>, id: Id, keep: set<Id>)
    ensures Only(q + [id], keep) == if id in keep then Only(q, keep) + [id] else Only(q, keep)
  {
    OnlyConcat(q, [id], keep);
    assert [id][1..] == [];
    assert Only(q, keep) + [] == Only(q, keep);
  }

  method UnlistEach(order: seq<Id>, owned: set<Id>) returns (list: seq<Command>)
    ensures list == Unlists(Only(order, owned))
  {
    list := [];
    for i := 0 to |order|
      invariant list == Unlists(Only(order[..i], owned))
    {
      OnlyGrows(order[..i], order[i], owned);
      assert order[..i + 1] == order[..i] + [order[i]];
      if order[i] in owned {
        UnlistsGrow(Only(order[..i], owned), order[i]);
        list := list + [Unlist(order[i])];
      }
    }
    assert order[..|order|] == order;
  }

  method RestoreWindowsCommands(r: Report) returns (cmds: Option<seq<Command>>)
    ensures cmds == Commands(r)
  {
    if !r.canRestore {
      return None;
    }
    var list := [];
    for i := 0 to |r.bootsequence|
      invariant forall j :: 0 <= j < i ==> r.bootsequence[j] in r.owned
    {
      if r.bootsequence[i] !in r.owned {
        assert r.bootsequence[i] in r.bootsequence;
        return None;
      }
    }
    if |r.bootsequence| > 0 {
      list := [ClearNext];
    }
    var unlists := UnlistEach(r.displayorder, r.owned);
    list := list + unlists;
    assert list + [] == list;
    var winIdx := IndexOf(r.displayorder, BOOT_MANAGER);
    if winIdx < 0 {
      list := list + [ListFirst(BOOT_MANAGER)];
    }
    cmds := Some(list);
  }

  // ---- running them ----------------------------------------------------------------------

  /** One command on a store; a strict tool refuses to take out what is not listed. */
  function RunOne(s: Store, c: Command, strict: bool): (Store, bool) {
    match c
    case ClearNext => (s.(bootsequence := []), true)
    case Unlist(id) =>
      if strict && id !in s.displayorder then (s, false) else (s.(displayorder := Drop(s.displayorder, {id})), true)
    case ListFirst(id) => (s.(displayorder := [id] + Drop(s.displayorder, {id})), true)
  }

  /** The commands in turn, up to the first that fails. */
  function RunAll(s: Store, cmds: seq<Command>, strict: bool): (Store, bool)
    decreases |cmds|
  {
    if cmds == [] then (s, true)
    else
      var r := RunOne(s, cmds[0], strict);
      if r.1 then RunAll(r.0, cmds[1..], strict) else r
  }

  predicate Distinct(q: seq<Id>) {
    forall i, j :: 0 <= i < j < |q| ==> q[i] != q[j]
  }

  function Ids(q: seq<Id>): set<Id> {
    set id | id in q
  }

  lemma {:induction false} RunConcat(s: Store, a: seq<Command>, b: seq<Command>, strict: bool)
    ensures var r := RunAll(s, a, strict); RunAll(s, a + b, strict) == if r.1 then RunAll(r.0, b, strict) else r
    decreases |a|
  {
    if a == [] {
      assert a + b == b;
    } else {
      assert (a + b)[1..] == a[1..] + b;
      var r := RunOne(s, a[0], strict);
      RunConcat(r.0, a[1..], b, strict);
    }
  }

  lemma {:induction false} RunUnlists(s: Store, q: seq<Id>, strict: bool)
    ensures var r := RunAll(s, Unlists(q), strict);
            && (r.1 ==> r.0 == s.(displayorder := Drop(s.displayorder, Ids(q))))
            && (r.1 <==> !strict || (Distinct(q) && forall id :: id in q ==> id in s.displayorder))
    decreases |q|
  {
    if q == [] {
      DropNone(s.displayorder, {});
      assert Ids(q) == {};
    } else {
      var r := RunOne(s, Unlist(q[0]), strict);
      assert Unlists(q)[1..] == Unlists(q[1..]);
      if r.1 {
        RunUnlists(r.0, q[1..], strict);
        DropTwice(s.displayorder, {q[0]}, Ids(q[1..]));
        assert Ids(q) == {q[0]} + Ids(q[1..]);
        DistinctSplits(q);
      } else {
        assert q[0] in q;
      }
    }
  }

  lemma DistinctSplits(q: seq<Id>)
    requires q != []
    ensures Distinct(q) <==> Distinct(q[1..]) && q[0] !in q[1..]
  {
  }

  lemma {:induction false} DropOwned(order: seq<Id>, owned: set<Id>)
    ensures Drop(order, Ids(Only(order, owned))) == Drop(order, owned)
  {
    DropSame(order, Ids(Only(order, owned)), owned);
  }

  lemma {:induction false} DropSame(order: seq<Id>, a: set<Id>, b: set<Id>)
    requires forall id :: id in order ==> (id in a <==> id in b)
    ensures Drop(order, a) == Drop(order, b)
  {
    if order != [] {
      assert order[0] in order;
      DropSame(order[1..], a, b);
    }
  }

  /** What an obedient tool makes of the plan's commands. */
  function Restored(s: Store): Store {
    var order := Drop(s.displayorder, OwnedEntries(s.objs));
    s.(bootsequence := [],
       displayorder := if BOOT_MANAGER in s.displayorder then order else [BOOT_MANAGER] + Drop(order, {BOOT_MANAGER}))
  }

  lemma RunPlan(obs: Observation, strict: bool)
    requires Plan(obs).canRestore
    ensures Commands(Plan(obs)).Some?
    ensures var s := obs.firmware.value;
            var r := RunAll(s, Commands(Plan(obs)).value, strict);
            && (r.1 ==> r.0 == Restored(s))
            && (r.1 <==> !strict || Distinct(Only(s.displayorder, OwnedEntries(s.objs))))
  {
    var s := obs.firmware.value;
    var report := Plan(obs);
    var clear := if s.bootsequence != [] then [ClearNext] else [];
    var q := Only(s.displayorder, report.owned);
    var last := if BOOT_MANAGER !in s.displayorder then [ListFirst(BOOT_MANAGER)] else [];
    var cleared := s.(bootsequence := []);
    assert RunAll(s, clear, strict) == (cleared, true) by {
      if clear != [] {
        assert clear[1..] == [];
      }
    }
    RunConcat(s, clear + Unlists(q), last, strict);
    RunConcat(s, clear, Unlists(q), strict);
    RunUnlists(cleared, q, strict);
    DropOwned(s.displayorder, report.owned);
    var r := RunAll(cleared, Unlists(q), strict);
    if r.1 && last != [] {
      assert last[1..] == [];
      assert RunAll(r.0, last, strict) == RunOne(r.0, last[0], strict);
    }
  }

  predicate VerifyWindowsOnly(after: Report) {
    after.state == WindowsOnly && BOOT_MANAGER in after.displayorder
  }

  /** What makes a permitted restore work: Windows is not itself named like us, and no entry of ours is listed twice. */
  predicate RestoreWorks(s: Store, strict: bool) {
    var owned := OwnedEntries(s.objs);
    BOOT_MANAGER !in owned && (strict ==> Distinct(Only(s.displayorder, owned)))
  }

  lemma PlanAfterRestore(obs: Observation)
    requires Plan(obs).canRestore
    ensures var s := obs.firmware.value;
            VerifyWindowsOnly(Plan(obs.(firmware := Some(Restored(s))))) <==> BOOT_MANAGER !in OwnedEntries(s.objs)
  {
    var s := obs.firmware.value;
    var t := Restored(s);
    var owned := OwnedEntries(s.objs);
    if BOOT_MANAGER !in owned {
      assert BOOT_MANAGER in t.displayorder;
      assert !Lists(t.displayorder, owned);
    } else if BOOT_MANAGER !in s.displayorder {
      assert t.displayorder[0] == BOOT_MANAGER;
      assert Lists(t.displayorder, owned);
    }
  }

  /**
   Whenever a restore is offered, carrying it out and looking again finds a
   Windows-only boot, if and only if Windows is not described like our entries and,
   with a strict tool, none of our entries is listed twice.
   */
  lemma RestoreWindowsIff(obs: Observation, strict: bool)
    requires Plan(obs).canRestore
    ensures Commands(Plan(obs)).Some?
    ensures var s := obs.firmware.value;
            var r := RunAll(s, Commands(Plan(obs)).value, strict);
            r.1 && VerifyWindowsOnly(Plan(obs.(firmware := Some(r.0)))) <==> RestoreWorks(s, strict)
  {
    RunPlan(obs, strict);
    PlanAfterRestore(obs);
  }

  /** A restore is offered and cannot work: the Windows entry itself is described like ours. */
  lemma WindowsNamedLikeUs()
    ensures var s := Store(map[BOOT_MANAGER := Entry("wootc", "")], [], [BOOT_MANAGER]);
            var obs := Observation(Some(s), Blank, Blank, false, false, true, true, {}, {}, false);
            && Plan(obs).canRestore && !RestoreWorks(s, false)
            && var r := RunAll(s, Commands(Plan(obs)).value, false);
               r.1 && r.0.displayorder == [] && !VerifyWindowsOnly(Plan(obs.(firmware := Some(r.0))))
  {
    var s := Store(map[BOOT_MANAGER := Entry("wootc", "")], [], [BOOT_MANAGER]);
    var obs := Observation(Some(s), Blank, Blank, false, false, true, true, {}, {}, false);
    var owned := OwnedEntries(s.objs);
    assert BOOT_MANAGER in owned && BOOT_MANAGER in s.displayorder && Lists(s.displayorder, owned);
    RunPlan(obs, false);
    RestoreWindowsIff(obs, false);
    assert Drop([BOOT_MANAGER], owned) == [];
  }

  /** A restore is offered and a strict tool stops half-way: one of our entries is listed twice. */
  lemma ListedTwice()
    ensures var ours := Guid(1);
            var s := Store(map[BOOT_MANAGER := Entry("Windows Boot Manager", ""), ours := Entry("wootc", "")],
                           [], [BOOT_MANAGER, ours, ours]);
            var obs := Observation(Some(s), Blank, Blank, false, false, true, true, {}, {}, false);
            Plan(obs).canRestore && RestoreWorks(s, false) && !RestoreWorks(s, true)
            && !RunAll(s, Commands(Plan(obs)).value, true).1
  {
    var ours := Guid(1);
    var s := Store(map[BOOT_MANAGER := Entry("Windows Boot Manager", ""), ours := Entry("wootc", "")],
                   [], [BOOT_MANAGER, ours, ours]);
    var obs := Observation(Some(s), Blank, Blank, false, false, true, true, {}, {}, false);
    var owned := OwnedEntries(s.objs);
    assert ours in owned && BOOT_MANAGER !in owned && ours in s.displayorder && Lists(s.displayorder, owned);
    var order: seq<Id>, two: seq<Id>, one: seq<Id> := s.displayorder, [ours, ours], [ours];
    assert order[1..] == two && two[1..] == one && one[1..] == [];
    assert Only(one, owned) == one;
    assert Only(two, owned) == two;
    assert Only(order, owned) == two && two[0] == two[1];
    RunPlan(obs, true);
  }

  /** After a restore that worked no other is offered, so a second one changes nothing. */
  lemma SecondRestoreChangesNothing(obs: Observation)
    requires Plan(obs).canRestore && BOOT_MANAGER !in OwnedEntries(obs.firmware.value.objs)
    ensures var again := Plan(obs.(firmware := Some(Restored(obs.firmware.value))));
            && Commands(again) == None && again.state == WindowsOnly
            && (!again.doubtful ==> again.advice == NoAction)
  {
    PlanAfterRestore(obs);
    var t := Restored(obs.firmware.value);
    assert !Lists(t.displayorder, OwnedEntries(t.objs));
  }

  /** The store keeps every entry, and the order of every entry that is not ours. */
  ghost predicate Kept(before: Store, after: Store) {
    var owned := OwnedEntries(before.objs);
    && after.objs == before.objs
    && (after.bootsequence == before.bootsequence || (after.bootsequence == [] && !Foreign(before.bootsequence, owned)))
    && forall keep: set<Id> :: keep !! owned + {BOOT_MANAGER} ==>
         Only(after.displayorder, keep) == Only(before.displayorder, keep)
  }

  /** A command that only concerns our entries, or lists Windows, keeps the rest. */
  predicate Ours(c: Command, s: Store) {
    match c
    case ClearNext => !Foreign(s.bootsequence, OwnedEntries(s.objs))
    case Unlist(id) => id in OwnedEntries(s.objs)
    case ListFirst(id) => id == BOOT_MANAGER
  }

  lemma OursKeeps(before: Store, s: Store, c: Command, strict: bool)
    requires Kept(before, s) && Ours(c, before)
    ensures Kept(before, RunOne(s, c, strict).0)
  {
    forall keep: set<Id> | keep !! OwnedEntries(before.objs) + {BOOT_MANAGER}
      ensures Only(RunOne(s, c, strict).0.displayorder, keep) == Only(before.displayorder, keep)
    {
      match c
      case ClearNext =>
      case Unlist(id) => OnlyAfterDrop(s.displayorder, {id}, keep);
      case ListFirst(id) =>
        OnlyAfterDrop(s.displayorder, {id}, keep);
        OnlyConcat([id], Drop(s.displayorder, {id}), keep);
        assert Only([id], keep) == [];
    }
  }

  lemma {:induction false} UnlistsAreOurs(q: seq<Id>, s: Store)
    requires forall id :: id in q ==> id in OwnedEntries(s.objs)
    ensures forall c :: c in Unlists(q) ==> Ours(c, s)
  {
    if q != [] {
      assert q[0] in q;
      UnlistsAreOurs(q[1..], s);
    }
  }

  lemma CommandsAreOurs(obs: Observation)
    requires obs.firmware.Some? && Commands(Plan(obs)).Some?
    ensures forall c :: c in Commands(Plan(obs)).value ==> Ours(c, obs.firmware.value)
  {
    var s := obs.firmware.value;
    UnlistsAreOurs(Only(s.displayorder, OwnedEntries(s.objs)), s);
  }

  /** A look at this store finds a Windows-only boot. */
  predicate Shows(evidence: Observation, s: Store) {
    VerifyWindowsOnly(Plan(evidence.(firmware := Some(s))))
  }

  /** A whole round, from the first look: what the planned commands may touch, and where they lead. */
  lemma RoundIsExact(evidence: Observation, s: Store, cmds: seq<Command>, strict: bool)
    requires Commands(Plan(evidence.(firmware := Some(s)))) == Some(cmds)
    ensures forall c :: c in cmds ==> Ours(c, s)
    ensures var r := RunAll(s, cmds, strict);
            && (r.1 && Shows(evidence, r.0) <==> RestoreWorks(s, strict))
            && (r.1 ==> r.0 == Restored(s))
  {
    var obs := evidence.(firmware := Some(s));
    CommandsAreOurs(obs);
    RunPlan(obs, strict);
    RestoreWindowsIff(obs, strict);
    var r := RunAll(s, cmds, strict);
    assert obs.(firmware := Some(r.0)) == evidence.(firmware := Some(r.0));
  }

  // ---- the action -----------------------------------------------------------------------------

  /** What the tool does with one call. */
  datatype Fault = Fault(obeyed: bool, reported: bool, readable: bool)

  class Firmware {
    var store: Store
    var clock: nat
    const faults: nat -> Fault
    const strict: bool

    constructor (store: Store, faults: nat -> Fault, strict: bool)
      ensures this.store == store && this.faults == faults && this.strict == strict
    {
      this.store, this.faults, this.strict, clock := store, faults, strict, 0;
    }

    ghost predicate Honest() {
      forall n: nat :: faults(n) == Fault(true, true, true)
    }

    method Observe(evidence: Observation) returns (r: Report)
      modifies this`clock
      ensures r == Plan(evidence.(firmware := None)) || r == Plan(evidence.(firmware := Some(store)))
      ensures Honest() ==> r == Plan(evidence.(firmware := Some(store)))
    {
      var f := faults(clock);
      clock := clock + 1;
      r := PlanBootRepair(evidence.(firmware := if f.readable then Some(store) else None));
    }

    /** A command may do nothing or be refused, and may be reported wrongly. */
    method RunBCDEdit(c: Command) returns (ok: bool)
      modifies this`store, this`clock
      ensures store == old(store) || store == RunOne(old(store), c, strict).0
      ensures Honest() ==> (store, ok) == RunOne(old(store), c, strict)
    {
      var f := faults(clock);
      clock := clock + 1;
      var r := RunOne(store, c, strict);
      if f.obeyed {
        store := r.0;
      }
      ok := r.1 && f.reported;
    }

    method RunCommands(cmds: seq<Command>) returns (ok: bool)
      requires forall c :: c in cmds ==> Ours(c, store)
      modifies this`store, this`clock
      ensures Kept(old(store), store)
      ensures Honest() ==> (store, ok) == RunAll(old(store), cmds, strict)
    {
      var i := 0;
      assert cmds[0..] == cmds;
      while i < |cmds|
        invariant i <= |cmds| && Kept(old(store), store)
        invariant Honest() ==> RunAll(old(store), cmds, strict) == RunAll(store, cmds[i..], strict)
      {
        assert cmds[i] in cmds && cmds[i..][1..] == cmds[i + 1..];
        OursKeeps(old(store), store, cmds[i], strict);
        ok := RunBCDEdit(cmds[i]);
        if !ok {
          return;
        }
        i := i + 1;
      }
      ok := true;
    }

    /** Whether a second look finds a Windows-only boot. */
    method LookAgain(evidence: Observation) returns (ok: bool)
      modifies this`clock
      ensures ok ==> StateOf(store, OwnedEntries(store.objs)) == WindowsOnly && BOOT_MANAGER in store.displayorder
      ensures Honest() ==> (ok <==> Shows(evidence, store))
    {
      var after := Observe(evidence);
      ok := VerifyWindowsOnly(after);
    }

    /** Run the planned commands and look again. */
    method RunAndLook(evidence: Observation, cmds: seq<Command>) returns (ok: bool)
      requires Commands(Plan(evidence.(firmware := Some(store)))) == Some(cmds)
      modifies this`store, this`clock
      ensures Kept(old(store), store)
      ensures ok ==> StateOf(store, OwnedEntries(store.objs)) == WindowsOnly && BOOT_MANAGER in store.displayorder
      ensures Honest() ==> (ok <==> RestoreWorks(old(store), strict)) && (ok ==> store == Restored(old(store)))
    {
      RoundIsExact(evidence, store, cmds, strict);
      ok := RunCommands(cmds);
      if ok {
        ok := LookAgain(evidence);
      }
    }

    /**
     Success is what the second look shows, never what the commands report. Without
     anything to do, success also covers a machine without a Windows boot entry.
     */
    method RestoreWindowsBoot(evidence: Observation) returns (ok: bool)
      modifies this`store, this`clock
      ensures Kept(old(store), store)
      ensures ok ==> StateOf(store, OwnedEntries(store.objs)) == WindowsOnly
      ensures ok ==> BOOT_MANAGER in store.displayorder || BOOT_MANAGER !in store.objs
      ensures var before := Plan(evidence.(firmware := Some(old(store))));
              && (Honest() && before.canRestore ==> (ok <==> RestoreWorks(old(store), strict)))
              && (Honest() && before.canRestore && ok ==> store == Restored(old(store)))
              && (!before.canRestore ==> store == old(store))
    {
      var before := Observe(evidence);
      var cmds := RestoreWindowsCommands(before);
      if cmds.None? {
        return before.state == WindowsOnly && !before.doubtful;
      }
      ok := RunAndLook(evidence, cmds.value);
    }
  }
}
