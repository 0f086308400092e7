/**
 Claiming files on the EFI partition before they are written, through a file system
 that refuses, lies about renames, eats temporary files and loses power.
 */
module EspOwnership {
  import opened Text
  import opened EspPath
  import opened EspManifest

  /** The manifest and its temporary sibling; None where no such file exists. */
  datatype Disk = Disk(final: Option<string>, tmp: Option<string>)

  /**
   Writing the temporary file works, fails before anything is written, fails after part
   of it, or fails at the close, when all of it is written.
   */
  datatype WriteResult = Written | NotWritten | Torn(part: string) | Unclosed

  /** What the file system does during one attempt. */
  datatype Fault = Fault(
    readable: bool,      // the manifest can be read
    vanished: bool,      // something else deletes the temporary file
    write: WriteResult,
    moved: bool,         // the rename moves the file
    reported: bool,      // a rename that moved also says so
    removed: bool)       // deleting the temporary file works, that of a failed write too

  const ATTEMPTS := 40

  // ---- one manifest write as a function ----------------------------------------------

  predicate Landed(d: Disk, content: string, f: Fault) {
    f.readable && d.final == Some(content)
  }

  function RemoveTmp(d: Disk, f: Fault): Disk {
    if f.removed then d.(tmp := None) else d
  }

  function EnsureTmp(d: Disk, content: string, f: Fault): (Disk, bool) {
    var e := if f.vanished then d.(tmp := None) else d;
    if e.tmp.Some? then (e, true)
    else
      match f.write
      case Written => (e.(tmp := Some(content)), true)
      case NotWritten => (e, false)
      case Torn(part) => (if f.removed then e else e.(tmp := Some(part)), false)
      case Unclosed => (e.(tmp := Some(content)), false)
  }

  function Rename(d: Disk, f: Fault): (Disk, bool) {
    if f.moved && d.tmp.Some? then (Disk(d.tmp, None), f.reported) else (d, false)
  }

  /** One turn of the retry loop: the disk after it, and whether the write is over. */
  function Attempt(d: Disk, content: string, f: Fault): (Disk, bool) {
    if Landed(d, content, f) then (RemoveTmp(d, f), true)
    else
      var e := EnsureTmp(d, content, f);
      if !e.1 then (e.0, false) else Rename(e.0, f)
  }

  /** The attempts from number `at` up to `end`, and the last look after them. */
  function Persist(d: Disk, content: string, faults: nat -> Fault, at: nat, end: nat): (Disk, bool)
    requires at <= end
    decreases end - at
  {
    if at == end then (RemoveTmp(d, faults(at)), Landed(d, content, faults(at)))
    else
      var r := Attempt(d, content, faults(at));
      if r.1 then r else Persist(r.0, content, faults, at + 1, end)
  }

  /** The temporary file is absent, or holds what is about to be written. */
  predicate TmpSafe(d: Disk, content: string) {
    d.tmp.None? || d.tmp == Some(content)
  }

  /** What a failed write leaves because it cannot be deleted either is one of these parts. */
  ghost predicate LeavesOnly(faults: nat -> Fault, parts: iset<string>) {
    forall n: nat :: faults(n).write.Torn? && !faults(n).removed ==> faults(n).write.part in parts
  }

  /** No other content is in the temporary file, and no failed write leaves a part there. */
  ghost predicate NothingStale(d: Disk, content: string, faults: nat -> Fault) {
    TmpSafe(d, content) && LeavesOnly(faults, iset{})
  }

  /**
   Where nothing stale is or arises in the temporary file, success means the destination
   holds the content; until then it holds what it held or the content.
   */
  lemma {:induction false} PersistTellsTheTruth(d: Disk, content: string, faults: nat -> Fault, at: nat, end: nat)
    requires at <= end && NothingStale(d, content, faults)
    ensures var r := Persist(d, content, faults, at, end);
            && (r.1 ==> r.0.final == Some(content))
            && (r.0.final == d.final || r.0.final == Some(content))
    decreases end - at
  {
    if at < end {
      var r := Attempt(d, content, faults(at));
      assert TmpSafe(r.0, content) && (r.0.final == d.final || r.0.final == Some(content));
      PersistTellsTheTruth(r.0, content, faults, at + 1, end);
    }
  }

  /** Where deleting works, no write leaves a temporary file behind, however it ends. */
  lemma {:induction false} PersistTidiesUp(d: Disk, content: string, faults: nat -> Fault, at: nat, end: nat)
    requires at <= end && forall n: nat :: faults(n).removed
    ensures Persist(d, content, faults, at, end).0.tmp == None
    decreases end - at
  {
    if at < end {
      PersistTidiesUp(Attempt(d, content, faults(at)).0, content, faults, at + 1, end);
    }
  }

  const HONEST := Fault(true, false, Written, true, true, true)

  /**
   On a file system without faults the write always claims success; the claim is
   true if and only if the content was there already or no stale temporary file was.
   */
  lemma HonestPersistIsTrueIff(d: Disk, content: string)
    ensures var r := Persist(d, content, n => HONEST, 0, ATTEMPTS);
            && r.1
            && (r.0.final == Some(content) <==> d.final == Some(content) || TmpSafe(d, content))
  {
    var faults: nat -> Fault := n => HONEST;
    assert faults(0) == HONEST;
    assert Attempt(d, content, HONEST).1;
    assert Persist(d, content, faults, 0, ATTEMPTS) == Attempt(d, content, HONEST);
  }

  /** Whatever tick it starts at, a write without faults is over after one turn, and reports success. */
  lemma HonestPersistIsOneTurn(d: Disk, content: string, faults: nat -> Fault, at: nat)
    requires forall n: nat :: faults(n) == HONEST
    ensures Persist(d, content, faults, at, at + ATTEMPTS) == Attempt(d, content, HONEST)
    ensures Attempt(d, content, HONEST).1
  {
    assert faults(at) == HONEST;
  }

  /**
   A claim that crashed between its temporary file and its rename shadows the next
   one: the next claim reports success, yet the manifest does not name it.
   */
  lemma CrashedClaimShadowsNext(header: seq<string>, owned: set<string>, a: string, b: string)
    requires forall l :: l in header ==> IsComment(l)
    requires forall c :: c in owned + {a, b} ==> IsClaim(c) && Survives(c)
    requires b !in owned + {a}
    ensures var crashed := Disk(Some(ManifestText(header, owned)), Some(ManifestText(header, owned + {a})));
            var r := Persist(crashed, ManifestText(header, owned + {b}), n => HONEST, 0, ATTEMPTS);
            r.1 && r.0.final.Some? && ReadManifest(r.0.final.value) == Some(owned + {a})
  {
    ManifestRoundTrip(header, owned);
    ManifestRoundTrip(header, owned + {a});
    ManifestRoundTrip(header, owned + {b});
    assert b in owned + {b} && b !in owned;
    var faults: nat -> Fault := n => HONEST;
    var crashed := Disk(Some(ManifestText(header, owned)), Some(ManifestText(header, owned + {a})));
    assert faults(0) == HONEST;
    assert Persist(crashed, ManifestText(header, owned + {b}), faults, 0, ATTEMPTS)
        == Attempt(crashed, ManifestText(header, owned + {b}), HONEST);
  }

  /** The name is one that the next manifest claims and the stale one does not. */
  ghost predicate NewClaim(owned: set<string>, a: string) {
    (forall c :: c in owned + {a} ==> IsClaim(c) && Survives(c)) && a !in owned
  }

  /** The manifest can never be read, and every move works: whatever is in the temporary file gets its way. */
  const BLIND := Fault(false, false, Written, true, true, true)

  /** A write that starts at this tick and reports success leaves a manifest with the property. */
  ghost predicate TellsAt(d: Disk, content: string, holds: string -> bool, faults: nat -> Fault, at: nat) {
    var r := Persist(d, content, faults, at, at + ATTEMPTS);
    r.1 ==> r.0.final.Some? && holds(r.0.final.value)
  }

  ghost predicate AlwaysTells(d: Disk, content: string, holds: string -> bool, parts: iset<string>) {
    forall faults: nat -> Fault, at: nat :: LeavesOnly(faults, parts) ==> TellsAt(d, content, holds, faults, at)
  }

  ghost predicate AllHold(parts: iset<string>, holds: string -> bool) {
    forall p :: p in parts ==> holds(p)
  }

  /**
   The exact condition under which success can be relied on, whatever else fails, where
   failed writes may leave any of these parts: any property of the content is one of the
   manifest after every success, if and only if the temporary file is absent or has that
   property, and so has every part. With "claims a path" it says when a reported claim
   is really recorded.
   */
  lemma ReportedIsRecordedIff(d: Disk, content: string, holds: string -> bool, parts: iset<string>)
    requires holds(content)
    ensures AlwaysTells(d, content, holds, parts) <==> (d.tmp.None? || holds(d.tmp.value)) && AllHold(parts, holds)
  {
    if d.tmp.Some? && !holds(d.tmp.value) {
      StaleIsPromoted(d, content, holds, parts);
    } else if p :| p in parts && !holds(p) {
      PartIsPromoted(d, content, holds, parts, p);
    } else {
      forall faults: nat -> Fault, at: nat | LeavesOnly(faults, parts)
        ensures TellsAt(d, content, holds, faults, at)
      {
        PersistKeepsProperty(d, content, faults, at, at + ATTEMPTS, holds, parts);
      }
    }
  }

  lemma StaleIsPromoted(d: Disk, content: string, holds: string -> bool, parts: iset<string>)
    requires d.tmp.Some? && !holds(d.tmp.value)
    ensures !AlwaysTells(d, content, holds, parts)
  {
    var faults: nat -> Fault := n => BLIND;
    assert faults(0) == BLIND && LeavesOnly(faults, parts);
    assert Attempt(d, content, BLIND) == (Disk(d.tmp, None), true);
    assert Persist(d, content, faults, 0, ATTEMPTS) == Attempt(d, content, BLIND);
    assert !TellsAt(d, content, holds, faults, 0);
  }

  lemma PartIsPromoted(d: Disk, content: string, holds: string -> bool, parts: iset<string>, p: string)
    requires p in parts && !holds(p)
    ensures !AlwaysTells(d, content, holds, parts)
  {
    var torn := Fault(false, true, Torn(p), true, true, false);
    var faults: nat -> Fault := n => if n == 0 then torn else BLIND;
    assert faults(0) == torn && faults(1) == BLIND && LeavesOnly(faults, parts);
    assert Attempt(d, content, torn) == (Disk(d.final, Some(p)), false);
    assert Attempt(Disk(d.final, Some(p)), content, BLIND) == (Disk(Some(p), None), true);
    assert Persist(d, content, faults, 0, ATTEMPTS) == Persist(Disk(d.final, Some(p)), content, faults, 1, ATTEMPTS);
    assert !TellsAt(d, content, holds, faults, 0);
  }

  lemma {:induction false} PersistKeepsProperty(
    d: Disk, content: string, faults: nat -> Fault, at: nat, end: nat, holds: string -> bool, parts: iset<string>)
    requires at <= end && LeavesOnly(faults, parts) && AllHold(parts, holds)
    requires holds(content) && (d.tmp.None? || holds(d.tmp.value))
    ensures var r := Persist(d, content, faults, at, end); r.1 ==> r.0.final.Some? && holds(r.0.final.value)
    decreases end - at
  {
    if at < end {
      var r := Attempt(d, content, faults(at));
      assert r.1 ==> r.0.final.Some? && holds(r.0.final.value);
      PersistKeepsProperty(r.0, content, faults, at + 1, end, holds, parts);
    }
  }

  /** Once, a write breaks off after this part, and the part cannot be deleted; nothing fails afterwards. */
  function TornOnce(part: string): nat -> Fault {
    n => if n == 0 then HONEST.(write := Torn(part), removed := false) else HONEST
  }

  /** Whatever the one torn write left is what the next turn moves into place and reports as success. */
  lemma TornWriteIsPromoted(d: Disk, content: string, part: string)
    requires d.tmp.None? && d.final != Some(content)
    ensures Persist(d, content, TornOnce(part), 0, ATTEMPTS) == (Disk(Some(part), None), true)
  {
    var faults := TornOnce(part);
    var torn := Disk(d.final, Some(part));
    assert Attempt(d, content, faults(0)) == (torn, false);
    assert Persist(d, content, faults, 0, ATTEMPTS) == Persist(torn, content, faults, 1, ATTEMPTS);
    assert faults(1) == HONEST;
    assert Attempt(torn, content, HONEST) == (Disk(Some(part), None), true);
  }

  /**
   A claim on a disk without any temporary file, whose first write is torn before its
   first byte and cannot be deleted: it reports success, and every claim is lost, the new one and all before it.
   */
  lemma TornClaimLosesAll(header: seq<string>, owned: set<string>, b: string)
    requires forall l :: l in header ==> IsComment(l)
    requires NewClaim(owned, b)
    ensures var r := Persist(Disk(Some(ManifestText(header, owned)), None), ManifestText(header, owned + {b}), TornOnce(""), 0, ATTEMPTS);
            r.1 && r.0.final.Some? && ReadManifest(r.0.final.value) == Some({})
  {
    ManifestRoundTrip(header, owned);
    ManifestRoundTrip(header, owned + {b});
    assert b in owned + {b} && b !in owned;
    TornWriteIsPromoted(Disk(Some(ManifestText(header, owned)), None), ManifestText(header, owned + {b}), "");
    assert ReadManifest("") == Some({});
  }

  /** No move works and no temporary file can be deleted. */
  const STUCK := Fault(true, false, Written, false, false, false)

  lemma {:induction false} StuckLeavesTmp(d: Disk, content: string, faults: nat -> Fault, at: nat, end: nat)
    requires at < end && (forall n: nat :: faults(n) == STUCK) && d.final != Some(content) && TmpSafe(d, content)
    ensures Persist(d, content, faults, at, end) == (Disk(d.final, Some(content)), false)
    decreases end - at
  {
    assert faults(at) == STUCK && faults(at + 1) == STUCK;
    var r := Attempt(d, content, faults(at));
    assert r == (Disk(d.final, Some(content)), false);
    if at + 1 < end {
      StuckLeavesTmp(r.0, content, faults, at + 1, end);
    }
  }

  /**
   Deleting matters even where no power is cut and no write is torn: from a disk without
   any temporary file, a claim that fails and cannot delete its temporary file makes the
   next claim report success without being recorded.
   */
  lemma FailedDeleteShadowsNext(header: seq<string>, owned: set<string>, a: string, b: string)
    requires forall l :: l in header ==> IsComment(l)
    requires NewClaim(owned, a) && NewClaim(owned + {a}, b) && NewClaim(owned, b)
    ensures var first := Persist(Disk(Some(ManifestText(header, owned)), None), ManifestText(header, owned + {a}), n => STUCK, 0, ATTEMPTS);
            var second := Persist(first.0, ManifestText(header, owned + {b}), n => HONEST, 0, ATTEMPTS);
            && !first.1 && second.1
            && second.0.final.Some? && ReadManifest(second.0.final.value) == Some(owned + {a}) && b !in owned + {a}
  {
    ManifestRoundTrip(header, owned);
    ManifestRoundTrip(header, owned + {a});
    assert a in owned + {a} && a !in owned;
    var faults: nat -> Fault := n => STUCK;
    var start := Disk(Some(ManifestText(header, owned)), None);
    assert forall n: nat :: faults(n) == STUCK;
    StuckLeavesTmp(start, ManifestText(header, owned + {a}), faults, 0, ATTEMPTS);
    CrashedClaimShadowsNext(header, owned, a, b);
  }

  /**
   The same when a write that has landed already cannot delete its own temporary file,
   whose result the program ignores: it reports success, and so does the lost claim after it.
   */
  lemma UndeletedTmpShadowsNext(header: seq<string>, owned: set<string>, b: string)
    requires forall l :: l in header ==> IsComment(l)
    requires NewClaim(owned, b)
    ensures var text := ManifestText(header, owned);
            var landed := Disk(Some(text), Some(text));
            var again := Persist(landed, text, n => HONEST.(removed := false), 0, ATTEMPTS);
            var next := Persist(again.0, ManifestText(header, owned + {b}), n => HONEST, 0, ATTEMPTS);
            && again == (landed, true) && next.1
            && next.0.final.Some? && ReadManifest(next.0.final.value) == Some(owned) && b !in owned
  {
    ManifestRoundTrip(header, owned);
    ManifestRoundTrip(header, owned + {b});
    assert b in owned + {b} && b !in owned;
    var text, more := ManifestText(header, owned), ManifestText(header, owned + {b});
    var landed := Disk(Some(text), Some(text));
    var undeleting: nat -> Fault := n => HONEST.(removed := false);
    var faults: nat -> Fault := n => HONEST;
    assert undeleting(0) == HONEST.(removed := false) && faults(0) == HONEST;
    assert Persist(landed, text, undeleting, 0, ATTEMPTS) == Attempt(landed, text, undeleting(0));
    assert Persist(landed, more, faults, 0, ATTEMPTS) == Attempt(landed, more, HONEST);
  }

  // ---- claims that can be read back ----------------------------------------------------

  ghost predicate AllClaims(claims: set<string>) {
    forall c :: c in claims ==> IsClaim(c) && Survives(c)
  }

  /** What has been read from a manifest can be written and read again. */
  lemma {:induction false} ReadGivesClaims(lines: seq<string>)
    requires ReadLines(lines).Some?
    ensures AllClaims(ReadLines(lines).value)
  {
    if lines != [] {
      ReadGivesClaims(lines[1..]);
      var line := lines[0];
      if TrimSpace(line) == line && ValidRel(line) && line != "" && line[0] != '#' {
        NormalizeValid(line);
        NormalizeIdempotent(line);
        TrimmedIff(line);
        TrimmedIff(Normalize(line));
      }
    }
  }

  /** The claims a manifest file makes; a missing manifest makes none, an unreadable one is refused. */
  function ClaimsOf(final: Option<string>): Option<set<string>> {
    match final
    case None => Some({})
    case Some(text) => ReadManifest(text)
  }

  /** There is no manifest, or it can be trusted. */
  predicate Readable(final: Option<string>) {
    final.Some? ==> ReadManifest(final.value).Some?
  }

  lemma ClaimsOfAreClaims(final: Option<string>)
    requires ClaimsOf(final).Some?
    ensures AllClaims(ClaimsOf(final).value)
  {
    if final.Some? {
      ReadGivesClaims(Lines(final.value));
    }
  }

  /** The claims of a manifest that can be trusted. */
  function Claims(final: Option<string>): set<string> {
    if ClaimsOf(final).Some? then ClaimsOf(final).value else {}
  }

  function NormalizedSet(rels: seq<string>): set<string> {
    set rel | rel in rels :: Normalize(rel)
  }

  /** Old claims and new ones together read back as themselves. */
  lemma MergedClaimsReadBack(header: seq<string>, final: Option<string>, rels: seq<string>)
    requires forall l :: l in header ==> IsComment(l)
    requires ClaimsOf(final).Some? && forall rel :: rel in rels ==> ValidRel(rel) && Survives(Normalize(rel))
    ensures var claims := ClaimsOf(final).value + NormalizedSet(rels);
            ReadManifest(ManifestText(header, claims)) == Some(claims)
  {
    var claims := ClaimsOf(final).value + NormalizedSet(rels);
    ClaimsOfAreClaims(final);
    forall c | c in claims
      ensures IsClaim(c) && Survives(c)
    {
      if c !in ClaimsOf(final).value {
        var rel :| rel in rels && Normalize(rel) == c;
        NormalizeValid(rel);
        NormalizeIdempotent(rel);
      }
    }
    ManifestRoundTrip(header, claims);
  }

  predicate ClaimsPath(text: string, rel: string) {
    ReadManifest(text).Some? && rel in ReadManifest(text).value
  }

  /**
   A claim reported as made is really recorded, whatever else fails, if and only if no
   temporary file without it lies there and no failed write can leave a part without it.
   */
  lemma ClaimIsRecordedIff(header: seq<string>, claims: set<string>, d: Disk, rel: string, parts: iset<string>)
    requires forall l :: l in header ==> IsComment(l)
    requires AllClaims(claims) && rel in claims
    ensures AlwaysTells(d, ManifestText(header, claims), t => ClaimsPath(t, rel), parts)
            <==> (d.tmp.None? || ClaimsPath(d.tmp.value, rel)) && forall p :: p in parts ==> ClaimsPath(p, rel)
  {
    ManifestRoundTrip(header, claims);
    ReportedIsRecordedIff(d, ManifestText(header, claims), t => ClaimsPath(t, rel), parts);
  }

  // ---- the volume -----------------------------------------------------------------------

  /** What a power cut leaves: the manifest files, and the files wootc has written or begun to write. */
  datatype Instant = Instant(disk: Disk, written: set<string>)

  /** Every file wootc has put there is named by the manifest. */
  ghost predicate Attributed(i: Instant) {
    ClaimsOf(i.disk.final).Some? && i.written <= ClaimsOf(i.disk.final).value
  }

  class Volume {
    var disk: Disk
    var written: set<string>
    var clock: nat
    const header: seq<string>
    const faults: nat -> Fault
    ghost var history: seq<Instant>

    constructor (disk: Disk, written: set<string>, header: seq<string>, faults: nat -> Fault)
      requires forall l :: l in header ==> IsComment(l)
      ensures Valid() && this.disk == disk && this.written == written && this.faults == faults && this.header == header
      ensures history == [Instant(disk, written)]
    {
      this.disk := disk;
      this.written := written;
      this.header := header;
      this.faults := faults;
      clock := 0;
      history := [Instant(disk, written)];
    }

    ghost predicate Valid()
      reads this
    {
      && (forall l :: l in header ==> IsComment(l))
      && history != [] && history[|history| - 1] == Instant(disk, written)
    }

    ghost predicate Honest() {
      forall n: nat :: faults(n) == HONEST
    }

    /** Deleting works, after a failed write too: then no stale temporary file can arise. */
    ghost predicate AlwaysDeletes() {
      forall n: nat :: faults(n).removed
    }

    /** Since `was`, the manifest has held one of two texts and no file has been written. */
    ghost predicate OnlyBetween(was: nat, a: Option<string>, b: Option<string>, files: set<string>)
      reads this
    {
      forall i :: was <= i < |history| ==> history[i].written == files && (history[i].disk.final == a || history[i].disk.final == b)
    }

    method Become(d: Disk)
      requires Valid()
      modifies this`disk, this`history
      ensures Valid() && disk == d && history == old(history) + [Instant(d, written)]
    {
      disk := d;
      history := history + [Instant(disk, written)];
    }

    /** One turn of the retry loop. */
    method TryOnce(content: string) returns (done: bool)
      requires Valid()
      modifies this`disk, this`clock, this`history
      ensures Valid() && old(history) <= history && clock == old(clock) + 1
      ensures (disk, done) == Attempt(old(disk), content, faults(old(clock)))
      ensures NothingStale(old(disk), content, faults) ==>
                NothingStale(disk, content, faults) && OnlyBetween(|old(history)|, old(disk).final, Some(content), written)
    {
      var f := faults(clock);
      clock := clock + 1;
      if Landed(disk, content, f) {
        Become(RemoveTmp(disk, f));
        return true;
      }
      var (withTmp, ready) := EnsureTmp(disk, content, f);
      Become(withTmp);
      if !ready {
        return false;
      }
      var (moved, over) := Rename(disk, f);
      Become(moved);
      return over;
    }

    /** Replace the manifest by write-temporary and rename; the destination's content is the verdict. */
    method PersistManifest(content: string) returns (ok: bool)
      requires Valid()
      modifies this`disk, this`clock, this`history
      ensures Valid() && old(history) <= history
      ensures (disk, ok) == Persist(old(disk), content, faults, old(clock), old(clock) + ATTEMPTS)
      ensures NothingStale(old(disk), content, faults) ==>
                OnlyBetween(|old(history)|, old(disk).final, Some(content), written)
    {
      ghost var safe := NothingStale(disk, content, faults);
      for attempt := 0 to ATTEMPTS
        invariant Valid() && old(history) <= history && clock == old(clock) + attempt
        invariant Persist(old(disk), content, faults, old(clock), old(clock) + ATTEMPTS) == Persist(disk, content, faults, clock, old(clock) + ATTEMPTS)
        invariant safe ==> NothingStale(disk, content, faults) && (disk.final == old(disk).final || disk.final == Some(content))
        invariant safe ==> OnlyBetween(|old(history)|, old(disk).final, Some(content), written)
      {
        var done := TryOnce(content);
        if done {
          return true;
        }
      }
      var f := faults(clock);
      ok := Landed(disk, content, f);
      Become(RemoveTmp(disk, f));
    }

    /** Since `was`, the manifest has made one of two sets of claims and no file has been written. */
    ghost predicate OnlyClaims(was: nat, a: Option<set<string>>, b: Option<set<string>>, files: set<string>)
      reads this
    {
      forall i :: was <= i < |history| ==>
        history[i].written == files && (ClaimsOf(history[i].disk.final) == a || ClaimsOf(history[i].disk.final) == b)
    }

    /** Write a set of claims that reads back as itself. */
    method WriteClaims(claims: set<string>) returns (ok: bool)
      requires Valid()
      modifies this`disk, this`clock, this`history
      ensures Valid() && old(history) <= history
      ensures NothingStale(old(disk), ManifestText(header, claims), faults)
                && ReadManifest(ManifestText(header, claims)) == Some(claims) ==>
                && (ok ==> ClaimsOf(disk.final) == Some(claims))
                && OnlyClaims(|old(history)|, ClaimsOf(old(disk).final), Some(claims), written)
      ensures AlwaysDeletes() ==> disk.tmp.None?
      ensures Honest() ==> ok
    {
      var content := WriteManifest(header, claims);
      if Honest() {
        HonestPersistIsOneTurn(disk, content, faults, clock);
      }
      if AlwaysDeletes() {
        PersistTidiesUp(disk, content, faults, clock, clock + ATTEMPTS);
      }
      if NothingStale(disk, content, faults) {
        PersistTellsTheTruth(disk, content, faults, clock, clock + ATTEMPTS);
      }
      ok := PersistManifest(content);
    }

    /** Claim paths, merged with what is claimed already. */
    method RecordOwnership(rels: seq<string>) returns (ok: bool)
      requires Valid()
      modifies this`disk, this`clock, this`history
      ensures Valid() && old(history) <= history
      ensures ok ==> ClaimsOf(old(disk).final).Some? && forall rel :: rel in rels ==> ValidRel(rel)
      ensures Honest() ==> (ok <==> Readable(old(disk).final) && forall rel :: rel in rels ==> ValidRel(rel))
      ensures var merged := Claims(old(disk).final) + NormalizedSet(rels);
              NothingStale(old(disk), ManifestText(header, merged), faults) && ClaimsOf(old(disk).final).Some?
                && (forall rel :: rel in rels ==> Survives(Normalize(rel))) ==>
                && (ok ==> ClaimsOf(disk.final) == Some(merged))
                && OnlyClaims(|old(history)|, ClaimsOf(old(disk).final), Some(merged), written)
      ensures AlwaysDeletes() ==> disk.tmp.None? || disk == old(disk)
    {
      var was := ClaimsOf(disk.final);
      if was.None? || exists rel :: rel in rels && !ValidRel(rel) {
        return false;
      }
      if forall rel :: rel in rels ==> Survives(Normalize(rel)) {
        MergedClaimsReadBack(header, disk.final, rels);
      }
      ok := WriteClaims(was.value + NormalizedSet(rels));
    }

    /** Nothing stale is on the disk, nothing stale can arise, and every written file is claimed. */
    ghost predicate Accountable()
      reads this
    {
      AlwaysDeletes() && disk.tmp.None? && Attributed(Instant(disk, written))
    }

    ghost predicate AlwaysAttributed(was: nat)
      reads this
    {
      forall i :: was <= i < |history| ==> Attributed(history[i])
    }

    /** Claim one path; whatever becomes of it, what has been written stays claimed. */
    method ClaimPath(rel: string) returns (ok: bool)
      requires Valid()
      modifies this`disk, this`clock, this`history
      ensures Valid() && old(history) <= history
      ensures var merged := Claims(old(disk).final) + {Normalize(rel)};
              NothingStale(old(disk), ManifestText(header, merged), faults) && Survives(Normalize(rel))
                && Attributed(Instant(old(disk), written)) ==>
                && AlwaysAttributed(|old(history)|) && Attributed(Instant(disk, written))
                && (ok ==> ClaimsOf(disk.final) == Some(merged))
      ensures AlwaysDeletes() ==> disk.tmp.None? || disk == old(disk)
      ensures Honest() ==> (ok <==> Readable(old(disk).final) && ValidRel(rel))
    {
      ok := RecordOwnership([rel]);
      assert NormalizedSet([rel]) == {Normalize(rel)};
      assert history[|history| - 1] == Instant(disk, written);
    }

    /** Claim the path, then write the file; a failed write leaves the claim behind. */
    method StageESPFile(rel: string, writeWorks: bool) returns (ok: bool)
      requires Valid()
      modifies this
      ensures Valid() && old(history) <= history
      ensures written == old(written) || written == old(written) + {Normalize(rel)}
      ensures ok ==> Normalize(rel) in written
      ensures var merged := Claims(old(disk).final) + {Normalize(rel)};
              NothingStale(old(disk), ManifestText(header, merged), faults) && Survives(Normalize(rel))
                && Attributed(Instant(old(disk), old(written))) ==>
                AlwaysAttributed(|old(history)|) && Attributed(Instant(disk, written))
                && (ok ==> Claims(disk.final) == merged)
      ensures AlwaysDeletes() ==> disk.tmp.None? || disk == old(disk)
      ensures Honest() ==> (ok <==> Readable(old(disk).final) && ValidRel(rel) && writeWorks)
    {
      ok := ClaimPath(rel);
      if !ok {
        return;
      }
      BeginFile(rel);
      ok := writeWorks;
    }

    /** From here on the file is there, if only in part. */
    method BeginFile(rel: string)
      requires Valid()
      modifies this`written, this`history
      ensures Valid() && written == old(written) + {Normalize(rel)}
      ensures history == old(history) + [Instant(disk, written)]
    {
      written := written + {Normalize(rel)};
      history := history + [Instant(disk, written)];
    }

    /** Stage one file where nothing stale can arise. */
    method StageNext(rel: string, writeWorks: bool) returns (ok: bool)
      requires Valid()
      modifies this
      ensures Valid() && old(history) <= history
      ensures written == old(written) || written == old(written) + {Normalize(rel)}
      ensures ok ==> written == old(written) + {Normalize(rel)}
      ensures old(Accountable()) && Survives(Normalize(rel)) ==>
                && Accountable() && AlwaysAttributed(|old(history)|)
                && (ok ==> Claims(disk.final) == Claims(old(disk).final) + {Normalize(rel)})
                && (Honest() ==> (ok <==> ValidRel(rel) && writeWorks))
    {
      ok := StageESPFile(rel, writeWorks);
    }

    ghost predicate Works(rels: seq<string>, writes: nat -> bool, k: nat)
      requires k <= |rels|
    {
      forall i :: 0 <= i < k ==> ValidRel(rels[i]) && writes(i)
    }

    /**
     Stage files one by one, stopping at the first failure. At every instant, so at
     every power cut, each file wootc wrote is claimed. Without faults it goes through
     exactly when every name is valid and every file can be written.
     */
    method StageAll(rels: seq<string>, writes: nat -> bool) returns (ok: bool)
      requires Valid()
      modifies this
      ensures Valid() && old(history) <= history
      ensures ok ==> written == old(written) + NormalizedSet(rels)
      ensures old(Accountable()) && (forall rel :: rel in rels ==> Survives(Normalize(rel))) ==>
                && Accountable() && AlwaysAttributed(|old(history)|)
                && (ok ==> Claims(disk.final) == Claims(old(disk).final) + NormalizedSet(rels))
                && (Honest() ==> (ok <==> Works(rels, writes, |rels|)))
    {
      ghost var accountable := Accountable() && forall rel :: rel in rels ==> Survives(Normalize(rel));
      ghost var done: set<string> := {};
      for k := 0 to |rels|
        invariant Valid() && old(history) <= history
        invariant done == NormalizedSet(rels[..k]) && written == old(written) + done
        invariant accountable ==> Accountable() && AlwaysAttributed(|old(history)|)
        invariant accountable ==> Claims(disk.final) == Claims(old(disk).final) + done
        invariant accountable && Honest() ==> Works(rels, writes, k)
      {
        ok := StageNext(rels[k], writes(k));
        NormalizedSetGrows(rels, k);
        done := done + {Normalize(rels[k])};
        if !ok {
          return;
        }
      }
      assert rels[..|rels|] == rels;
      ok := true;
    }
  }

  lemma NormalizedSetGrows(rels: seq<string>, k: nat)
    requires k < |rels|
    ensures NormalizedSet(rels[..k + 1]) == NormalizedSet(rels[..k]) + {Normalize(rels[k])}
  {
  }
}
