/**
 The backing graph of a Linux guest: which whole disks a mounted file system really
 rests on, recomputed from measured block devices, mounts, loops and Btrfs members.
 */
module Ancestry {
  import opened Text
  import opened OverlayOptions

  datatype Block = Block(kind: string, uuid: string)

  datatype Mount = Mount(target: string, source: string, fstype: string, major: string, options: string, uuid: string)

  /** Device numbers, paths and names are strings; a missing key of a lookup reads as "". */
  datatype Graph = Graph(
    nodes: map<string, Block>,
    aliases: map<string, string>,
    parents: map<string, set<string>>,
    mounts: map<string, Mount>,
    stacked: set<string>,
    loops: map<string, string>,
    paths: map<string, string>,
    btrfs: map<string, seq<string>>,
    target: string)

  const LAYERS: set<string> := {"part", "crypt", "lvm", "dm", "mpath", "md", "raid0", "raid1", "raid4", "raid5", "raid6", "raid10"}

  function UuidOf(g: Graph, major: string): string {
    if major in g.nodes then g.nodes[major].uuid else ""
  }

  function ParentsOf(g: Graph, major: string): set<string> {
    if major in g.parents then g.parents[major] else {}
  }

  predicate Digits(s: string) {
    s != "" && forall i :: 0 <= i < |s| ==> '0' <= s[i] <= '9'
  }

  /** major:minor */
  predicate MajorShaped(s: string) {
    var k := IndexOf(s, ':');
    k < |s| && Digits(s[..k]) && Digits(s[k + 1..])
  }

  // ---- which mount serves a path -------------------------------------------------

  /** The mount target is the path or one of its ancestors. */
  predicate Covers(target: string, path: string) {
    target == "/" || target == path || HasPrefix(path, target + "/")
  }

  predicate IsTarget(g: Graph, t: string) {
    t in g.mounts || t in g.stacked
  }

  /** The longest prefix of the path, no longer than n, that is a mount target covering it; "" if none is. */
  function Deepest(g: Graph, path: string, n: nat): string
    requires n <= |path|
  {
    if n == 0 then ""
    else if IsTarget(g, path[..n]) && Covers(path[..n], path) then path[..n]
    else Deepest(g, path, n - 1)
  }

  /** The one mount row on a target; a stacked target is refused. */
  function MountAt(g: Graph, target: string): Option<Mount> {
    if target in g.stacked then None
    else if target !in g.mounts then None
    else Some(g.mounts[target])
  }

  function MountFor(g: Graph, p: string): Option<Mount> {
    if p !in g.paths || !Absolute(g.paths[p]) then None
    else
      var best := Deepest(g, g.paths[p], |g.paths[p]|);
      if best == "" then None else MountAt(g, best)
  }

  lemma CoversIsPrefix(t: string, path: string)
    requires Covers(t, path) && HasPrefix(path, "/")
    ensures t <= path
  {
  }

  /** No covering target is longer than the one Deepest picks, and it picks one whenever there is one. */
  lemma {:induction false} DeepestIsDeepest(g: Graph, path: string, n: nat, t: string)
    requires n <= |path| && HasPrefix(path, "/")
    requires IsTarget(g, t) && Covers(t, path) && 0 < |t| <= n
    ensures var best := Deepest(g, path, n);
            best != "" && IsTarget(g, best) && Covers(best, path) && |t| <= |best|
  {
    CoversIsPrefix(t, path);
    assert path[..|t|] == t;
    if !(IsTarget(g, path[..n]) && Covers(path[..n], path)) {
      DeepestIsDeepest(g, path, n - 1, t);
    }
  }

  lemma {:induction false} DeepestIsTarget(g: Graph, path: string, n: nat)
    requires n <= |path|
    ensures var best := Deepest(g, path, n);
            best != "" ==> IsTarget(g, best) && Covers(best, path) && best <= path
  {
    if n > 0 && !(IsTarget(g, path[..n]) && Covers(path[..n], path)) {
      DeepestIsTarget(g, path, n - 1);
    }
  }

  /** The target chosen so far is the longest covering one among those already looked at. */
  ghost predicate BestOf(done: set<string>, path: string, best: string) {
    && (best != "" ==> best in done && Covers(best, path))
    && (forall t :: t in done && Covers(t, path) ==> |t| <= |best|)
  }

  lemma BestIsDeepest(g: Graph, path: string, best: string)
    requires HasPrefix(path, "/")
    requires BestOf(g.mounts.Keys + g.stacked, path, best)
    ensures best == Deepest(g, path, |path|)
  {
    var deepest := Deepest(g, path, |path|);
    DeepestIsTarget(g, path, |path|);
    if best != "" {
      CoversIsPrefix(best, path);
      DeepestIsDeepest(g, path, |path|, best);
      assert best == path[..|best|] && deepest == path[..|deepest|];
    }
  }

  method Consider(t: string, path: string, best: string, ghost done: set<string>) returns (r: string)
    requires BestOf(done, path, best)
    ensures BestOf(done + {t}, path, r)
  {
    r := if Covers(t, path) && |t| > |best| then t else best;
  }

  /** The scan of all targets in any order finds the mount row that MountFor names, or refuses as it does. */
  method FindMountFor(g: Graph, p: string) returns (r: Option<Mount>)
    ensures r == MountFor(g, p)
  {
    if p !in g.paths || !Absolute(g.paths[p]) {
      return None;
    }
    var resolved := g.paths[p];
    var best := "";
    var todo := g.mounts.Keys;
    while todo != {}
      invariant todo <= g.mounts.Keys && BestOf(g.mounts.Keys - todo, resolved, best)
      decreases todo
    {
      var t :| t in todo;
      best := Consider(t, resolved, best, g.mounts.Keys - todo);
      assert g.mounts.Keys - todo + {t} == g.mounts.Keys - (todo - {t});
      todo := todo - {t};
    }
    todo := g.stacked;
    while todo != {}
      invariant todo <= g.stacked && BestOf(g.mounts.Keys + (g.stacked - todo), resolved, best)
      decreases todo
    {
      var t :| t in todo;
      ghost var done := g.mounts.Keys + (g.stacked - todo);
      best := Consider(t, resolved, best, done);
      assert done + {t} == g.mounts.Keys + (g.stacked - (todo - {t}));
      todo := todo - {t};
    }
    assert g.mounts.Keys + (g.stacked - todo) == g.mounts.Keys + g.stacked;
    BestIsDeepest(g, resolved, best);
    r := if best == "" then None else MountAt(g, best);
  }

  /** The target of some mount, or of several, that covers the path. */
  ghost predicate CoveringTarget(g: Graph, path: string, t: string) {
    t != "" && (t in g.mounts || t in g.stacked) && (t == "/" || t == path || t + "/" <= path)
  }

  /** No other covering target is longer. */
  ghost predicate LongestCover(g: Graph, path: string, t: string) {
    CoveringTarget(g, path, t) && forall u :: CoveringTarget(g, path, u) ==> |u| <= |t|
  }

  lemma DeepestIff(g: Graph, path: string, t: string)
    requires HasPrefix(path, "/")
    ensures LongestCover(g, path, t) <==> t != "" && t == Deepest(g, path, |path|)
  {
    var best := Deepest(g, path, |path|);
    DeepestIsTarget(g, path, |path|);
    assert best != "" ==> CoveringTarget(g, path, best);
    forall u | CoveringTarget(g, path, u)
      ensures best != "" && |u| <= |best| && u == path[..|u|]
    {
      CoversIsPrefix(u, path);
      DeepestIsDeepest(g, path, |path|, u);
    }
  }

  /** A path is served by the mount on the one covering target that no other one is longer than, unless several are stacked there. */
  lemma MountForIff(g: Graph, p: string, row: Mount)
    ensures MountFor(g, p) == Some(row) <==>
              && p in g.paths && Absolute(g.paths[p])
              && exists t :: LongestCover(g, g.paths[p], t) && t in g.mounts && t !in g.stacked && g.mounts[t] == row
  {
    if p in g.paths && Absolute(g.paths[p]) {
      var path := g.paths[p];
      forall t
        ensures LongestCover(g, path, t) <==> t != "" && t == Deepest(g, path, |path|)
      {
        DeepestIff(g, path, t);
      }
    }
  }

  // ---- the walk --------------------------------------------------------------------

  /** Identity checks on a mount row; for Btrfs also on the whole member list. */
  predicate BtrfsAgrees(g: Graph, row: Mount, physical: string, members: seq<string>) {
    && physical != "" && row.uuid != "" && UuidOf(g, physical) == row.uuid && members != []
    && (forall i, j :: 0 <= i < j < |members| ==> members[i] != members[j])
    && (forall m :: m in members ==> MajorShaped(m) && UuidOf(g, m) == row.uuid)
    && physical in members
  }

  function Physical(g: Graph, row: Mount): string {
    Lookup(g.aliases, Split(row.source, '[')[0])
  }

  function Members(g: Graph, row: Mount): seq<string> {
    if row.uuid in g.btrfs then g.btrfs[row.uuid] else []
  }

  /** The whole disks under a block device, or None when any backing is refused. */
  function Disk(g: Graph, major: string, projected: bool, seen: set<string>): Option<set<string>>
    decreases g.nodes.Keys - seen, 0
  {
    if major in seen || major !in g.nodes then None
    else
      var deeper := seen + {major};
      var kind := g.nodes[major].kind;
      if kind == "loop" then
        if !projected || major !in g.loops then None
        else
          match MountFor(g, g.loops[major])
          case None => None
          case Some(row) => MountDisks(g, row, false, deeper)
      else if kind == "disk" then
        if ParentsOf(g, major) != {} then None else Some({major})
      else if kind !in LAYERS || ParentsOf(g, major) == {} then None
      else DisksUnder(g, ParentsOf(g, major), projected, deeper)
  }

  /** The whole disks under all of several devices; one refusal refuses them all. */
  function DisksUnder(g: Graph, majors: set<string>, projected: bool, seen: set<string>): Option<set<string>>
    decreases g.nodes.Keys - seen, 1
  {
    if forall m :: m in majors ==> Disk(g, m, projected, seen).Some? then
      Some(set m, d | m in majors && d in Disk(g, m, projected, seen).value :: d)
    else None
  }

  /** The whole disks under a mount row. */
  function MountDisks(g: Graph, row: Mount, projected: bool, seen: set<string>): Option<set<string>>
    decreases g.nodes.Keys - seen, 2
  {
    if row.fstype == "btrfs" then
      if !BtrfsAgrees(g, row, Physical(g, row), Members(g, row)) then None
      else DisksUnder(g, set m | m in Members(g, row), false, seen)
    else if Physical(g, row) != row.major then None
    else Disk(g, row.major, projected, seen)
  }

  // ---- backing chains -----------------------------------------------------------------

  /** A device, and whether a read-only projection may still pass through a loop device. */
  datatype Step = Step(major: string, projected: bool)

  /** What a device or a mount row rests on, one step down: none for a whole disk. */
  datatype Below = Below(majors: set<string>, projected: bool)

  function MountNext(g: Graph, row: Mount, projected: bool): Option<Below> {
    if row.fstype == "btrfs" then
      if BtrfsAgrees(g, row, Physical(g, row), Members(g, row)) then Some(Below(set m | m in Members(g, row), false))
      else None
    else if Physical(g, row) != row.major then None
    else Some(Below({row.major}, projected))
  }

  /** One step down from a device; None for an unknown or inconsistent layer. */
  function Next(g: Graph, s: Step): Option<Below> {
    if s.major !in g.nodes then None
    else if g.nodes[s.major].kind == "loop" then
      if !s.projected || s.major !in g.loops then None
      else
        match MountFor(g, g.loops[s.major])
        case None => None
        case Some(row) => MountNext(g, row, false)
    else if g.nodes[s.major].kind == "disk" then
      if ParentsOf(g, s.major) != {} then None else Some(Below({}, s.projected))
    else if g.nodes[s.major].kind !in LAYERS || ParentsOf(g, s.major) == {} then None
    else Some(Below(ParentsOf(g, s.major), s.projected))
  }

  ghost predicate HasParents(g: Graph, major: string) {
    major in g.parents && g.parents[major] != {}
  }

  ghost predicate IsKind(g: Graph, major: string, kinds: set<string>) {
    major in g.nodes && g.nodes[major].kind in kinds
  }

  /** What a loop device is backed by, where it may be passed at all. */
  ghost function LoopBelow(g: Graph, s: Step): Option<Below> {
    if s.projected && s.major in g.loops && MountFor(g, g.loops[s.major]).Some?
    then MountNext(g, MountFor(g, g.loops[s.major]).value, false) else None
  }

  /** A whole disk rests on nothing, a known layer on its parents, and a loop on the mount that serves its file. */
  lemma NextSays(g: Graph, s: Step)
    ensures Next(g, s) ==
              if IsKind(g, s.major, {"disk"}) && !HasParents(g, s.major) then Some(Below({}, s.projected))
              else if IsKind(g, s.major, {"part", "crypt", "lvm", "dm", "mpath", "md", "raid0", "raid1", "raid4", "raid5", "raid6", "raid10"})
                      && HasParents(g, s.major) then Some(Below(g.parents[s.major], s.projected))
              else if IsKind(g, s.major, {"loop"}) then LoopBelow(g, s)
              else None
  {
    if s.major in g.nodes {
      KindsApart(g.nodes[s.major].kind);
    }
  }

  lemma KindsApart(kind: string)
    ensures kind in LAYERS ==> kind != "disk" && kind != "loop"
    ensures "disk" != "loop"
  {
    assert "disk"[1] == 'i' && "loop"[1] == 'o' && "loop"[0] == 'l' && "disk"[0] == 'd';
    assert kind in LAYERS ==> kind != "disk" && kind != "loop" by {
      if kind in LAYERS {
        assert |kind| != 4 || kind[0] == 'p';
      }
    }
  }

  /** A device number is two decimal numbers with a colon between them. */
  ghost predicate TwoNumbers(s: string) {
    exists a: string, b: string :: s == a + (":" + b) && AllDecimal(a) && AllDecimal(b)
  }

  ghost predicate AllDecimal(s: string) {
    s != "" && forall i :: 0 <= i < |s| ==> s[i] in {'0', '1', '2', '3', '4', '5', '6', '7', '8', '9'}
  }

  lemma DecimalIff(s: string)
    ensures Digits(s) <==> AllDecimal(s)
  {
    forall i | 0 <= i < |s|
      ensures '0' <= s[i] <= '9' <==> s[i] in {'0', '1', '2', '3', '4', '5', '6', '7', '8', '9'}
    {
    }
  }

  lemma TwoNumbersAreShaped(a: string, b: string)
    requires AllDecimal(a) && AllDecimal(b)
    ensures MajorShaped(a + (":" + b))
  {
    var s := a + (":" + b);
    assert s[|a|] == ':' && forall i :: 0 <= i < |a| ==> s[i] == a[i];
    IndexOfIs(s, ':', |a|);
    assert s[..|a|] == a && s[|a| + 1..] == b;
    DecimalIff(a);
    DecimalIff(b);
  }

  lemma MajorShapedIff(s: string)
    ensures MajorShaped(s) <==> TwoNumbers(s)
  {
    var k := IndexOf(s, ':');
    if MajorShaped(s) {
      DecimalIff(s[..k]);
      DecimalIff(s[k + 1..]);
      assert s == s[..k] + (":" + s[k + 1..]);
    }
    if a: string, b: string :| s == a + (":" + b) && AllDecimal(a) && AllDecimal(b) {
      TwoNumbersAreShaped(a, b);
    }
  }

  ghost predicate RestsDirectlyOn(g: Graph, s: Step, n: Step) {
    Next(g, s).Some? && n.major in Next(g, s).value.majors && n.projected == Next(g, s).value.projected
  }

  /** A backing chain: each device rests on the next one. */
  ghost predicate Chain(g: Graph, c: seq<Step>) {
    c != [] && forall i, j :: 0 <= i && j == i + 1 && j < |c| ==> RestsDirectlyOn(g, c[i], c[j])
  }

  ghost predicate Acyclic(c: seq<Step>) {
    forall i, j :: 0 <= i < j < |c| ==> c[i].major != c[j].major
  }

  ghost predicate Avoids(c: seq<Step>, seen: set<string>) {
    forall i :: 0 <= i < |c| ==> c[i].major !in seen
  }

  /** The chain has reached a device that rests on nothing. */
  ghost predicate AtBottom(g: Graph, c: seq<Step>)
    requires c != []
  {
    Next(g, c[|c| - 1]).Some? && Next(g, c[|c| - 1]).value.majors == {}
  }

  /** Every chain from s is free of cycles and of `seen`, and can only stop at a known layer. */
  ghost predicate SoundFrom(g: Graph, s: Step, seen: set<string>) {
    forall c: seq<Step> :: Chain(g, c) && c[0] == s ==> Acyclic(c) && Avoids(c, seen) && Next(g, c[|c| - 1]).Some?
  }

  /** Some chain from s ends at the device d, which rests on nothing. */
  ghost predicate RestsOn(g: Graph, s: Step, d: string) {
    exists c: seq<Step> :: Chain(g, c) && c[0] == s && c[|c| - 1].major == d && AtBottom(g, c)
  }

  lemma ChainTail(g: Graph, c: seq<Step>)
    requires Chain(g, c) && |c| > 1
    ensures Chain(g, c[1..]) && RestsDirectlyOn(g, c[0], c[1])
  {
  }

  lemma ChainGrows(g: Graph, s: Step, c: seq<Step>)
    requires Chain(g, c) && RestsDirectlyOn(g, s, c[0])
    ensures Chain(g, [s] + c)
  {
  }

  /** A mount row that passes its checks rests on something. */
  lemma MountNextNonEmpty(g: Graph, row: Mount, projected: bool)
    requires MountNext(g, row, projected).Some?
    ensures MountNext(g, row, projected).value.majors != {}
  {
    if row.fstype == "btrfs" {
      assert Members(g, row)[0] in MountNext(g, row, projected).value.majors;
    }
  }

  /** A parentless whole disk is the only place where a chain can end. */
  lemma ChainsEndAtWholeDisks(g: Graph, s: Step)
    ensures Next(g, s).Some? && Next(g, s).value.majors == {} <==>
            s.major in g.nodes && g.nodes[s.major].kind == "disk" && ParentsOf(g, s.major) == {}
  {
    if s.major in g.nodes && g.nodes[s.major].kind == "loop" && s.projected && s.major in g.loops {
      var row := MountFor(g, g.loops[s.major]);
      if row.Some? && MountNext(g, row.value, false).Some? {
        MountNextNonEmpty(g, row.value, false);
      }
    }
  }

  lemma DisksUnderOne(g: Graph, major: string, projected: bool, seen: set<string>)
    ensures DisksUnder(g, {major}, projected, seen) == Disk(g, major, projected, seen)
  {
    var alone, under := Disk(g, major, projected, seen), DisksUnder(g, {major}, projected, seen);
    assert major in {major};
    if alone.Some? {
      assert under.Some?;
      forall d
        ensures d in under.value <==> d in alone.value
      {
      }
      assert under.value == alone.value;
    }
  }

  function DisksBelow(g: Graph, below: Option<Below>, seen: set<string>): Option<set<string>> {
    if below.None? then None else DisksUnder(g, below.value.majors, below.value.projected, seen)
  }

  lemma MountStep(g: Graph, row: Mount, projected: bool, seen: set<string>)
    ensures MountDisks(g, row, projected, seen) == DisksBelow(g, MountNext(g, row, projected), seen)
  {
    if row.fstype != "btrfs" && Physical(g, row) == row.major {
      DisksUnderOne(g, row.major, projected, seen);
    }
  }

  /** The walk, one step at a time. */
  lemma DiskStep(g: Graph, s: Step, seen: set<string>)
    ensures Disk(g, s.major, s.projected, seen) ==
            if s.major in seen || Next(g, s).None? then None
            else if Next(g, s).value.majors == {} then Some({s.major})
            else DisksBelow(g, Next(g, s), seen + {s.major})
  {
    ChainsEndAtWholeDisks(g, s);
    if s.major !in seen && s.major in g.nodes && g.nodes[s.major].kind == "loop" && s.projected && s.major in g.loops {
      var row := MountFor(g, g.loops[s.major]);
      if row.Some? {
        MountStep(g, row.value, false, seen + {s.major});
      }
    }
  }

  // ---- exactness -------------------------------------------------------------------------

  /** A walk that succeeds has seen only sound chains. */
  lemma {:induction false} SuccessMakesChainSound(g: Graph, s: Step, seen: set<string>, c: seq<Step>)
    requires Disk(g, s.major, s.projected, seen).Some? && Chain(g, c) && c[0] == s
    ensures Acyclic(c) && Avoids(c, seen) && Next(g, c[|c| - 1]).Some?
    ensures AtBottom(g, c) ==> c[|c| - 1].major in Disk(g, s.major, s.projected, seen).value
    decreases |c|
  {
    DiskStep(g, s, seen);
    if |c| > 1 {
      ChainTail(g, c);
      var tail := c[1..];
      SuccessMakesChainSound(g, c[1], seen + {s.major}, tail);
      assert forall i :: 1 <= i < |c| ==> c[i] == tail[i - 1];
      assert c[|c| - 1] == tail[|tail| - 1];
    }
  }

  /** Sound chains make the walk succeed; it terminates because the path set grows within the node set. */
  lemma {:induction false} SoundChainsMakeSuccess(g: Graph, s: Step, seen: set<string>)
    requires SoundFrom(g, s, seen)
    ensures Disk(g, s.major, s.projected, seen).Some?
    decreases g.nodes.Keys - seen
  {
    DiskStep(g, s, seen);
    var here := [s];
    assert Chain(g, here) && here[0] == s;
    assert Avoids(here, seen);
    assert here[0].major !in seen && Next(g, here[|here| - 1]).Some?;
    assert s.major in g.nodes.Keys - seen;
    var below := Next(g, s).value;
    forall m | m in below.majors
      ensures Disk(g, m, below.projected, seen + {s.major}).Some?
    {
      SoundBelow(g, s, seen, Step(m, below.projected));
      SoundChainsMakeSuccess(g, Step(m, below.projected), seen + {s.major});
    }
  }

  lemma RestAvoidsFirst(s: Step, c: seq<Step>, seen: set<string>)
    requires Acyclic([s] + c) && Avoids([s] + c, seen)
    ensures Acyclic(c) && Avoids(c, seen + {s.major})
  {
    var longer := [s] + c;
    forall i | 0 <= i < |c|
      ensures c[i] == longer[i + 1] && c[i].major != s.major && c[i].major !in seen
    {
      assert longer[0].major != longer[i + 1].major;
    }
  }

  lemma SoundBelow(g: Graph, s: Step, seen: set<string>, n: Step)
    requires SoundFrom(g, s, seen) && RestsDirectlyOn(g, s, n)
    ensures SoundFrom(g, n, seen + {s.major})
  {
    forall c: seq<Step> | Chain(g, c) && c[0] == n
      ensures Acyclic(c) && Avoids(c, seen + {s.major}) && Next(g, c[|c| - 1]).Some?
    {
      ChainGrows(g, s, c);
      var longer := [s] + c;
      assert longer[0] == s && longer[|longer| - 1] == c[|c| - 1];
      RestAvoidsFirst(s, c, seen);
    }
  }

  /** Every disk the walk reports really is at the end of some chain. */
  lemma {:induction false} ReportedDiskIsReached(g: Graph, s: Step, seen: set<string>, d: string)
    requires Disk(g, s.major, s.projected, seen).Some? && d in Disk(g, s.major, s.projected, seen).value
    ensures RestsOn(g, s, d)
    decreases g.nodes.Keys - seen
  {
    DiskStep(g, s, seen);
    var below := Next(g, s).value;
    if below.majors == {} {
      var here := [s];
      assert Chain(g, here) && here[0] == s && here[|here| - 1].major == d && AtBottom(g, here);
    } else {
      assert s.major in g.nodes.Keys - seen;
      var m :| m in below.majors && d in Disk(g, m, below.projected, seen + {s.major}).value;
      var n := Step(m, below.projected);
      ReportedDiskIsReached(g, n, seen + {s.major}, d);
      var c: seq<Step> :| Chain(g, c) && c[0] == n && c[|c| - 1].major == d && AtBottom(g, c);
      ChainGrows(g, s, c);
      var longer := [s] + c;
      assert longer[0] == s && longer[|longer| - 1] == c[|c| - 1];
    }
  }

  /**
   The backing walk is exact: it succeeds if and only if every backing chain is
   acyclic and uses only known layers, and then it returns exactly the whole disks
   at the ends of the chains.
   */
  lemma DiskIsExact(g: Graph, s: Step)
    ensures Disk(g, s.major, s.projected, {}).Some? <==> SoundFrom(g, s, {})
    ensures Disk(g, s.major, s.projected, {}).Some? ==>
              forall d :: d in Disk(g, s.major, s.projected, {}).value <==> RestsOn(g, s, d)
  {
    if SoundFrom(g, s, {}) {
      SoundChainsMakeSuccess(g, s, {});
    }
    if Disk(g, s.major, s.projected, {}).Some? {
      forall c: seq<Step> | Chain(g, c) && c[0] == s
        ensures Acyclic(c) && Avoids(c, {}) && Next(g, c[|c| - 1]).Some?
      {
        SuccessMakesChainSound(g, s, {}, c);
      }
      forall d
        ensures d in Disk(g, s.major, s.projected, {}).value <==> RestsOn(g, s, d)
      {
        if d in Disk(g, s.major, s.projected, {}).value {
          ReportedDiskIsReached(g, s, {}, d);
        }
        if RestsOn(g, s, d) {
          var c: seq<Step> :| Chain(g, c) && c[0] == s && c[|c| - 1].major == d && AtBottom(g, c);
          SuccessMakesChainSound(g, s, {}, c);
        }
      }
    }
  }

  // ---- the root file system ---------------------------------------------------------------

  /** The mount rests on the selected disk and on nothing else. */
  predicate Require(g: Graph, row: Mount) {
    TargetOnly(MountDisks(g, row, row.fstype == "erofs", {}), g.target)
  }

  predicate TargetOnly(disks: Option<set<string>>, target: string) {
    disks.Some? && |disks.value| == 1 && target in disks.value
  }

  ghost predicate AllSound(g: Graph, b: Below) {
    forall m :: m in b.majors ==> SoundFrom(g, Step(m, b.projected), {})
  }

  ghost predicate Reaches(g: Graph, b: Below, d: string) {
    exists m :: m in b.majors && RestsOn(g, Step(m, b.projected), d)
  }

  /** Every backing chain of the mount is sound, one ends at the selected disk, and none ends anywhere else. */
  ghost predicate BackedOnlyByTarget(g: Graph, row: Mount) {
    var below := MountNext(g, row, row.fstype == "erofs");
    && below.Some?
    && AllSound(g, below.value)
    && (forall d :: Reaches(g, below.value, d) <==> d == g.target)
  }

  /** The walk over several devices is exact, too. */
  lemma DisksUnderIsExact(g: Graph, b: Below)
    ensures DisksUnder(g, b.majors, b.projected, {}).Some? <==> AllSound(g, b)
    ensures AllSound(g, b) ==> forall d :: d in DisksUnder(g, b.majors, b.projected, {}).value <==> Reaches(g, b, d)
  {
    forall m | m in b.majors
      ensures Disk(g, m, b.projected, {}).Some? <==> SoundFrom(g, Step(m, b.projected), {})
      ensures Disk(g, m, b.projected, {}).Some? ==>
                forall d :: d in Disk(g, m, b.projected, {}).value <==> RestsOn(g, Step(m, b.projected), d)
    {
      DiskIsExact(g, Step(m, b.projected));
    }
  }

  lemma TargetOnlyIsExact(g: Graph, b: Below)
    ensures TargetOnly(DisksUnder(g, b.majors, b.projected, {}), g.target) <==>
            AllSound(g, b) && forall d :: Reaches(g, b, d) <==> d == g.target
  {
    DisksUnderIsExact(g, b);
    if AllSound(g, b) {
      var disks := DisksUnder(g, b.majors, b.projected, {}).value;
      SingletonOf(disks, g.target);
      if forall d :: Reaches(g, b, d) <==> d == g.target {
        assert disks == {g.target};
      }
    }
  }

  lemma TargetOnlyBelow(g: Graph, row: Mount, disks: Option<set<string>>)
    requires disks == DisksBelow(g, MountNext(g, row, row.fstype == "erofs"), {})
    ensures TargetOnly(disks, g.target) <==> BackedOnlyByTarget(g, row)
  {
    var below := MountNext(g, row, row.fstype == "erofs");
    if below.Some? {
      TargetOnlyIsExact(g, below.value);
    }
  }

  /** The check of one mount row is exact: it passes if and only if the row rests on the selected disk alone. */
  lemma RequireIsExact(g: Graph, row: Mount)
    ensures Require(g, row) <==> BackedOnlyByTarget(g, row)
  {
    MountStep(g, row, row.fstype == "erofs", {});
    TargetOnlyBelow(g, row, MountDisks(g, row, row.fstype == "erofs", {}));
  }

  lemma SingletonOf(s: set<string>, x: string)
    ensures |s| == 1 && x in s <==> s == {x}
  {
    if |s| == 1 && x in s {
      assert |s - {x}| == 0;
    }
  }

  /** What a mount is mounted from, up to a subvolume in brackets, as a device number. */
  ghost predicate ComesFrom(g: Graph, row: Mount, major: string) {
    var base := Split(row.source, '[')[0];
    base in g.aliases && g.aliases[base] == major
  }

  /** The device has this file system on it. */
  ghost predicate HasFs(g: Graph, major: string, uuid: string) {
    major in g.nodes && g.nodes[major].uuid == uuid
  }

  /** The members of the file system are known, all distinct and carry it, and one of them is the source. */
  ghost predicate KnownMembers(g: Graph, row: Mount) {
    && row.uuid != "" && row.uuid in g.btrfs
    && var members := g.btrfs[row.uuid];
       && (exists m :: m in members && m != "" && ComesFrom(g, row, m))
       && (forall i, j :: 0 <= i < j < |members| ==> members[i] != members[j])
       && (forall m :: m in members ==> TwoNumbers(m) && HasFs(g, m, row.uuid))
  }

  ghost predicate MemberRestsOn(g: Graph, members: seq<string>, d: string) {
    exists m :: m in members && RestsOn(g, Step(m, false), d)
  }

  /** Every chain below the members is sound, and together they end at the selected disk alone. */
  ghost predicate MembersBacked(g: Graph, members: seq<string>) {
    && (forall m :: m in members ==> SoundFrom(g, Step(m, false), {}))
    && (forall d :: MemberRestsOn(g, members, d) <==> d == g.target)
  }

  /** A Btrfs mount is accepted exactly when its members are known and rest, all of them, on the selected disk alone. */
  lemma BtrfsIff(g: Graph, row: Mount)
    requires row.fstype == "btrfs"
    ensures Require(g, row) <==> KnownMembers(g, row) && MembersBacked(g, g.btrfs[row.uuid])
  {
    RequireIsExact(g, row);
    KnownMembersIff(g, row);
    MembersBackedIff(g, Members(g, row));
  }

  lemma KnownMembersIff(g: Graph, row: Mount)
    ensures KnownMembers(g, row) <==> BtrfsAgrees(g, row, Physical(g, row), Members(g, row))
  {
    forall m
      ensures MajorShaped(m) <==> TwoNumbers(m)
    {
      MajorShapedIff(m);
    }
  }

  lemma MembersBackedIff(g: Graph, members: seq<string>)
    ensures var below := Below(set m | m in members, false);
            MembersBacked(g, members) <==> AllSound(g, below) && forall d :: Reaches(g, below, d) <==> d == g.target
  {
    var below := Below(set m | m in members, false);
    forall d
      ensures Reaches(g, below, d) <==> MemberRestsOn(g, members, d)
    {
    }
  }

  /** Any other mount is accepted exactly when its source is the device it names and that one rests on the selected disk alone; only erofs may do so through a loop. */
  lemma PlainMountIff(g: Graph, row: Mount)
    requires row.fstype != "btrfs"
    ensures Require(g, row) <==>
              && Lookup(g.aliases, Split(row.source, '[')[0]) == row.major
              && var s := Step(row.major, row.fstype == "erofs");
                 SoundFrom(g, s, {}) && forall d :: RestsOn(g, s, d) <==> d == g.target
  {
    RequireIsExact(g, row);
    var s := Step(row.major, row.fstype == "erofs");
    assert forall d :: Reaches(g, Below({row.major}, row.fstype == "erofs"), d) <==> RestsOn(g, s, d);
  }

  ghost predicate IsLoop(g: Graph, s: Step) {
    s.major in g.nodes && g.nodes[s.major].kind == "loop"
  }

  lemma {:induction false} ProjectionOnlyEnds(g: Graph, c: seq<Step>, i: nat, j: nat)
    requires Chain(g, c) && i < j < |c|
    ensures c[j].projected ==> c[i].projected && !IsLoop(g, c[i])
    decreases j
  {
    assert RestsDirectlyOn(g, c[j - 1], c[j]);
    if i < j - 1 {
      ProjectionOnlyEnds(g, c, i, j - 1);
    }
  }

  /** A sound chain passes one loop device at most, and none unless it starts from a read-only projection. */
  lemma OneLoopAtMost(g: Graph, s: Step, c: seq<Step>, j: nat)
    requires SoundFrom(g, s, {}) && Chain(g, c) && c[0] == s && j < |c| && IsLoop(g, c[j])
    ensures s.projected && forall i :: 0 <= i < |c| && i != j ==> !IsLoop(g, c[i])
  {
    LoopNeedsProjection(g, s, c, j);
    forall i | 0 <= i < |c| && i != j && IsLoop(g, c[i])
      ensures false
    {
      LoopNeedsProjection(g, s, c, i);
      if i < j {
        ProjectionOnlyEnds(g, c, i, j);
      } else {
        ProjectionOnlyEnds(g, c, j, i);
      }
    }
    if j > 0 {
      ProjectionOnlyEnds(g, c, 0, j);
    }
  }

  lemma LoopNeedsProjection(g: Graph, s: Step, c: seq<Step>, j: nat)
    requires SoundFrom(g, s, {}) && Chain(g, c) && c[0] == s && j < |c| && IsLoop(g, c[j])
    ensures c[j].projected
  {
    var upTo := c[..j + 1];
    assert Chain(g, upTo) && upTo[0] == s && upTo[|upTo| - 1] == c[j];
    assert Next(g, c[j]).Some?;
  }

  /** An overlay's writable layers must come from one mount. */
  predicate WritableAgree(g: Graph, options: string) {
    match ReadLayers(Split(options, ','), map[])
    case None => false
    case Some(layers) =>
      Lookup(layers, "upperdir") == "" || SameMount(MountFor(g, Lookup(layers, "upperdir")), MountFor(g, Lookup(layers, "workdir")))
  }

  predicate SameMount(a: Option<Mount>, b: Option<Mount>) {
    a.Some? && b.Some? && a.value.major == b.value.major && a.value.source == b.value.source
  }

  /** The guest's root file system rests on the selected disk alone. */
  predicate VerifyRoot(g: Graph) {
    match MountAt(g, "/")
    case None => false
    case Some(row) => if row.fstype != "overlay" then Require(g, row) else VerifyOverlay(g, row.options)
  }

  predicate VerifyOverlay(g: Graph, options: string) {
    match OverlayPaths(options)
    case None => false
    case Some(paths) =>
      && WritableAgree(g, options)
      && forall p :: p in paths ==>
           var r := MountFor(g, p);
           r.Some? && r.value.target != "/" && Require(g, r.value)
  }

  /** The path is served by the deepest mount covering it, which is not the overlay itself and rests only on the selected disk. */
  ghost predicate PathBacked(g: Graph, p: string) {
    var r := MountFor(g, p);
    r.Some? && r.value.target != "/" && BackedOnlyByTarget(g, r.value)
  }

  /** The upper and the work directory that the options give come from one mount. */
  ghost predicate WritableTogether(g: Graph, options: seq<string>) {
    forall u, w :: Given(options, "upperdir", u) && Given(options, "workdir", w) ==>
      exists a: Mount, b: Mount :: MountFor(g, u) == Some(a) && MountFor(g, w) == Some(b) && a.major == b.major && a.source == b.source
  }

  /**
   What an overlay's options must say: they can be read without doubt, the writable
   layers come from one mount, and every path that some layer lists is backed.
   */
  ghost predicate OverlayBacked(g: Graph, options: seq<string>) {
    Readable(options) && WritableTogether(g, options) && forall p :: Listed(options, p) ==> PathBacked(g, p)
  }

  /** What a root must be: a plain one rests only on the selected disk, and so does all that an overlay lists. */
  ghost predicate RootBacked(g: Graph) {
    match MountAt(g, "/")
    case None => false
    case Some(row) => if row.fstype != "overlay" then BackedOnlyByTarget(g, row) else OverlayBacked(g, Split(row.options, ','))
  }

  lemma WritableIff(g: Graph, options: string)
    requires OverlayPaths(options).Some?
    ensures WritableAgree(g, options) <==> WritableTogether(g, Split(options, ','))
  {
    var q := Split(options, ',');
    var layers := ReadLayers(q, map[]).value;
    ReadIsGiven(q, layers, "upperdir");
    ReadIsGiven(q, layers, "workdir");
  }

  lemma PathIff(g: Graph, p: string)
    ensures PathBacked(g, p) <==> var r := MountFor(g, p); r.Some? && r.value.target != "/" && Require(g, r.value)
  {
    if MountFor(g, p).Some? {
      RequireIsExact(g, MountFor(g, p).value);
    }
  }

  lemma OverlayIff(g: Graph, options: string)
    ensures VerifyOverlay(g, options) <==> OverlayBacked(g, Split(options, ','))
  {
    OverlayPathsIff(options);
    if OverlayPaths(options).Some? {
      WritableIff(g, options);
      forall p
        ensures PathBacked(g, p) <==> var r := MountFor(g, p); r.Some? && r.value.target != "/" && Require(g, r.value)
      {
        PathIff(g, p);
      }
    }
  }

  /** The check accepts a root if and only if it is backed: it refuses nothing that rests only on the selected disk. */
  lemma VerifyRootIsExact(g: Graph)
    ensures VerifyRoot(g) <==> RootBacked(g)
  {
    if MountAt(g, "/").Some? {
      RequireIsExact(g, MountAt(g, "/").value);
      OverlayIff(g, MountAt(g, "/").value.options);
    }
  }

  /** Each path that an accepted overlay is given for a writable layer is backed. */
  lemma WritableLayerIsBacked(g: Graph, row: Mount, key: string, v: string)
    requires VerifyRoot(g) && MountAt(g, "/") == Some(row) && row.fstype == "overlay"
    requires key in {"upperdir", "workdir"} && key + "=" + v in Split(row.options, ',')
    ensures PathBacked(g, v)
  {
    VerifyRootIsExact(g);
    WritableIsListed(Split(row.options, ','), key, v);
  }

  /** Each part of the lower and data layers of an accepted overlay is backed, however the lists are spelled. */
  lemma LowerLayerIsBacked(g: Graph, row: Mount, key: string, plus: string, v: string, p: string)
    requires VerifyRoot(g) && MountAt(g, "/") == Some(row) && row.fstype == "overlay"
    requires key in {"lowerdir", "datadir"} && plus in {"", "+"} && key + plus + "=" + v in Split(row.options, ',')
    requires p in Split(v, ':') && p != ""
    ensures PathBacked(g, p)
  {
    VerifyRootIsExact(g);
    LowerIsListed(Split(row.options, ','), key, plus, v, p);
  }
}
