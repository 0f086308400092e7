/**
 The firmware boot configuration that bcdedit edits, the boot-chain journal on
 disk, and the single commands that change either of them.
 */
module BootStore {
  import opened Text

  /**
   A bcdedit identifier: a full braced GUID, a well-known alias such as
   {bootmgr}, or the empty string. Spellings of one GUID that differ only in
   letter case are one value here.
   */
  datatype Id = Blank | Guid(number: nat) | Named(name: string)

  const BOOT_MANAGER := Named("{bootmgr}")

  /** One firmware entry, without its identifier. */
  datatype Entry = Entry(description: string, path: string)

  /**
   The listing of `bcdedit /enum firmware`: the entries, and the two lists of the
   firmware boot manager. A list may hold an identifier that has no entry.
   */
  datatype Store = Store(objs: map<Id, Entry>, bootsequence: seq<Id>, displayorder: seq<Id>)

  // ---- whose entry it is -----------------------------------------------------

  predicate IsWootc(e: Entry) {
    SameFold(e.description, "wootc")
  }

  // ---- the boot lists --------------------------------------------------------

  /** s without every identifier of ids. */
  function Drop(s: seq<Id>, ids: set<Id>): (r: seq<Id>)
    ensures forall x :: x in r <==> x in s && x !in ids
  {
    if s == [] then []
    else if s[0] in ids then Drop(s[1..], ids)
    else [s[0]] + Drop(s[1..], ids)
  }

  /** The identifiers of s that are in keep, in their order in s. */
  function Only(s: seq<Id>, keep: set<Id>): (r: seq<Id>)
    ensures forall x :: x in r <==> x in s && x in keep
  {
    if s == [] then []
    else if s[0] in keep then [s[0]] + Only(s[1..], keep)
    else Only(s[1..], keep)
  }

  lemma {:induction false} DropTwice(s: seq<Id>, a: set<Id>, b: set<Id>)
    ensures Drop(Drop(s, a), b) == Drop(s, a + b)
  {
    if s != [] {
      DropTwice(s[1..], a, b);
    }
  }

  lemma {:induction false} DropNone(s: seq<Id>, ids: set<Id>)
    requires forall x :: x in s ==> x !in ids
    ensures Drop(s, ids) == s
  {
    if s != [] {
      DropNone(s[1..], ids);
    }
  }

  lemma {:induction false} OnlyNone(s: seq<Id>, keep: set<Id>)
    requires forall x :: x in s ==> x !in keep
    ensures Only(s, keep) == []
  {
    if s != [] {
      OnlyNone(s[1..], keep);
    }
  }

  /** Dropping foreign-free ids leaves the foreign ids and their order alone. */
  lemma {:induction false} OnlyAfterDrop(s: seq<Id>, ids: set<Id>, keep: set<Id>)
    requires ids !! keep
    ensures Only(Drop(s, ids), keep) == Only(s, keep)
  {
    if s != [] {
      OnlyAfterDrop(s[1..], ids, keep);
    }
  }

  lemma {:induction false} OnlyConcat(a: seq<Id>, b: seq<Id>, keep: set<Id>)
    ensures Only(a + b, keep) == Only(a, keep) + Only(b, keep)
  {
    if a == [] {
      assert a + b == b;
    } else {
      OnlyConcat(a[1..], b, keep);
      assert (a + b)[1..] == a[1..] + b;
    }
  }

  function Insert(s: seq<Id>, slot: nat, id: Id): seq<Id> {
    var k := if slot < |s| then slot else |s|;
    s[..k] + [id] + s[k..]
  }

  lemma OnlyAfterInsert(s: seq<Id>, slot: nat, id: Id, keep: set<Id>)
    requires id !in keep
    ensures Only(Insert(s, slot, id), keep) == Only(s, keep)
  {
    var k := if slot < |s| then slot else |s|;
    OnlyConcat(s[..k] + [id], s[k..], keep);
    OnlyConcat(s[..k], [id], keep);
    OnlyConcat(s[..k], s[k..], keep);
    assert s == s[..k] + s[k..];
    assert Only([id], keep) == [];
  }

  // ---- the journal -----------------------------------------------------------

  /** Unset stands for the empty phase and for every word the program does not know. */
  datatype Phase =
    | Unset | Begun | CreatingEntry | EntryCreated | Prepared | Arming | Committed
    | RollingBack | RolledBack | RollbackUnconfirmed

  /** The boot-chain journal record; staged maps an ESP-relative path to its SHA-256. */
  datatype Txn = Txn(phase: Phase, guid: Id, efiPath: string, staged: map<string, string>)

  datatype Journal = Absent | Unreadable | Record(txn: Txn)

  const EMPTY_TXN := Txn(Unset, Blank, "", map[])

  /**
   Everything that survives a power cut. `next` is a GUID number the firmware has
   not given out yet; `created` and `armed` are the entries created, and the
   entries named by an `arming` record, since the last `begun` record.
   */
  datatype World = World(
    store: Store,
    journal: Journal,
    guidFile: Id,
    next: nat,
    created: set<Id>,
    armed: set<Id>)

  // ---- the commands ----------------------------------------------------------

  datatype Action =
    | RemoveFromSequence(id: Id)              // bcdedit /set {fwbootmgr} bootsequence id /remove
    | RemoveFromOrder(id: Id)                 // bcdedit /set {fwbootmgr} displayorder id /remove
    | DeleteEntry(id: Id)                     // bcdedit /delete id
    | ClearSequence                           // bcdedit /deletevalue {fwbootmgr} bootsequence
    | RefreshMenu                             // bcdedit /displayorder {current} /addfirst
    | CopyBootManager(listed: bool, slot: nat) // bcdedit /copy {bootmgr} /d wootc
    | SetPath(id: Id, path: string)           // bcdedit /set id path p
    | ArmFirst(id: Id)                        // bcdedit /set {fwbootmgr} bootsequence id /addfirst
    | SaveJournal(txn: Txn)                   // temp file, sync, rename
    | MarkBooted                              // `arming` becomes `committed`: the deployer has started
    | WriteGuidFile(id: Id)                   // bcd-guid.txt (Blank: the file is removed)

  function InheritedPath(s: Store): string {
    if BOOT_MANAGER in s.objs then s.objs[BOOT_MANAGER].path else ""
  }

  /** The world after the command took effect. */
  function Apply(w: World, a: Action): World {
    var s := w.store;
    match a
    case RemoveFromSequence(id) => w.(store := s.(bootsequence := Drop(s.bootsequence, {id})))
    case RemoveFromOrder(id) => w.(store := s.(displayorder := Drop(s.displayorder, {id})))
    case DeleteEntry(id) => w.(store := s.(objs := s.objs - {id}))
    case ClearSequence => w.(store := s.(bootsequence := []))
    case RefreshMenu => w
    case CopyBootManager(listed, slot) =>
      var g := Guid(w.next);
      w.(store := s.(objs := s.objs[g := Entry("wootc", InheritedPath(s))],
                     displayorder := if listed then Insert(s.displayorder, slot, g) else s.displayorder),
         next := w.next + 1,
         created := w.created + {g})
    case SetPath(id, path) =>
      if id in s.objs then w.(store := s.(objs := s.objs[id := s.objs[id].(path := path)])) else w
    case ArmFirst(id) => w.(store := s.(bootsequence := [id] + Drop(s.bootsequence, {id})))
    case SaveJournal(txn) =>
      w.(journal := Record(txn),
         created := if txn.phase.Begun? then {} else w.created,
         armed := if txn.phase.Begun? then {} else if txn.phase.Arming? then w.armed + {txn.guid} else w.armed)
    case MarkBooted =>
      if w.journal.Record? then w.(journal := Record(w.journal.txn.(phase := Committed))) else w
    case WriteGuidFile(id) => w.(guidFile := id)
  }
}
