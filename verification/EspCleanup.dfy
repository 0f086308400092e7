/**
 Removing the product's files from the EFI partition. What may be removed is worked out
 from the partition itself, so a removal cut short must leave enough evidence behind
 for the next one to finish the job.
 */
module EspCleanup {
  import opened Text
  import opened EspPath
  import opened EspManifest

  const MARKER: string := "# wootc"
  const WOOTC: string := "efi/wootc/"
  const FEDORA: string := "efi/fedora/"
  const SYSTEMD: string := "efi/systemd/"
  const LOADER: string := "loader/"

  const MANIFEST: string := WOOTC + "wootc-owned.txt"
  const FEDORA_MENU: string := FEDORA + "grub.cfg"
  const LOADER_MENU: string := LOADER + "loader.conf"

  const PRODUCT: set<string> := {
    WOOTC + "deployer-vmlinuz", WOOTC + "deployer-initramfs.img", WOOTC + "phase2-vmlinuz",
    WOOTC + "phase2-initramfs.img", WOOTC + "wubildr.efi"}

  const MENUS: set<string> := {FEDORA_MENU, "efi/redhat/grub.cfg", WOOTC + "grub.cfg", LOADER_MENU}

  const FEDORA_FILES: set<string> := {FEDORA + "shimx64.efi", FEDORA + "grubx64.efi", FEDORA + "mmx64.efi"}

  const SYSTEMD_FILES: set<string> := {
    SYSTEMD + "shimx64.efi", SYSTEMD + "grubx64.efi", SYSTEMD + "systemd-bootx64.efi"}

  const LOADER_ENTRIES: set<string> := {LOADER + "entries/wootc-deployer.conf", LOADER + "entries/wootc.conf"}

  /** What each file holds, by normalized name, and which of the files exist now. */
  datatype Disk = Disk(content: map<string, string>, present: set<string>)

  predicate WellFormed(d: Disk) {
    d.present <= d.content.Keys
  }

  // ---- what may be removed -----------------------------------------------------------

  predicate StandsAt(s: string, sub: string, i: nat) {
    i + |sub| <= |s| && s[i..i + |sub|] == sub
  }

  predicate Contains(s: string, sub: string) {
    exists i: nat | i <= |s| :: StandsAt(s, sub, i)
  }

  /** The file exists and carries the product's marker. */
  predicate Marked(d: Disk, rel: string)
    requires WellFormed(d)
  {
    rel in d.present && Contains(d.content[rel], MARKER)
  }

  /** The fixed historical staging set, attributed by marked menus. */
  function Legacy(d: Disk): set<string>
    requires WellFormed(d)
  {
    PRODUCT
    + (set menu | menu in MENUS && Marked(d, menu))
    + (if Marked(d, FEDORA_MENU) then FEDORA_FILES else {})
    + (if Marked(d, LOADER_MENU) then SYSTEMD_FILES + LOADER_ENTRIES else {})
  }

  const VENDOR_MENUS: seq<string> := [FEDORA_MENU, "efi/redhat/grub.cfg", WOOTC + "grub.cfg"]

  /** What one menu claims: itself, and the boot files that came with it. */
  function MenuClaims(d: Disk, menu: string): set<string>
    requires WellFormed(d)
  {
    if !Marked(d, menu) then {}
    else {menu} + (if menu == FEDORA_MENU then FEDORA_FILES else if menu == LOADER_MENU then LOADER_ENTRIES + SYSTEMD_FILES else {})
  }

  function VendorClaims(d: Disk, k: nat): set<string>
    requires WellFormed(d) && k <= |VENDOR_MENUS|
  {
    if k == 0 then {} else VendorClaims(d, k - 1) + MenuClaims(d, VENDOR_MENUS[k - 1])
  }

  lemma LegacyMenuByMenu(d: Disk)
    requires WellFormed(d)
    ensures Legacy(d) == VendorClaims(d, |VENDOR_MENUS|) + MenuClaims(d, LOADER_MENU) + PRODUCT
  {
    var a, b, c := VENDOR_MENUS[0], VENDOR_MENUS[1], VENDOR_MENUS[2];
    assert VendorClaims(d, 1) == MenuClaims(d, a) && VendorClaims(d, 2) == VendorClaims(d, 1) + MenuClaims(d, b);
    assert MENUS == {a, b, c, LOADER_MENU};
  }

  /** Files that older versions wrote without recording them in the manifest. */
  predicate Unrecorded(rel: string) {
    rel in PRODUCT || rel in MENUS
  }

  /** The manifest's claims; no manifest claims nothing, a manifest that cannot be trusted is refused. */
  function Owned(d: Disk): Option<set<string>>
    requires WellFormed(d)
  {
    if MANIFEST in d.present then ReadManifest(d.content[MANIFEST]) else Some({})
  }

  /** The files a cleanup of this disk sets out to remove. */
  function Plan(d: Disk): Option<set<string>>
    requires WellFormed(d)
  {
    match Owned(d)
    case None => None
    case Some(owned) =>
      Some(owned + (set rel | rel in Legacy(d) && (MANIFEST !in d.present || Unrecorded(rel))) - {MANIFEST})
  }

  predicate Allowed(rel: string) {
    var r := Normalize(rel);
    || HasPrefix(r, WOOTC)
    || r in FEDORA_FILES + SYSTEMD_FILES + LOADER_ENTRIES
    || r in {FEDORA_MENU, "efi/redhat/grub.cfg", LOADER_MENU}
  }

  predicate AllAllowed(rels: set<string>) {
    forall rel | rel in rels :: Allowed(rel)
  }

  // ---- the plan, name by name ----------------------------------------------------------

  /** The file exists, and the marker stands somewhere in its text. */
  ghost predicate CarriesMarker(d: Disk, rel: string)
    requires WellFormed(d)
  {
    rel in d.present && exists a: string, b: string :: d.content[rel] == a + ("# wootc" + b)
  }

  lemma ContainsIff(s: string, sub: string)
    ensures Contains(s, sub) <==> exists a: string, b: string :: s == a + (sub + b)
  {
    if Contains(s, sub) {
      var i: nat :| i <= |s| && StandsAt(s, sub, i);
      var a, b := s[..i], s[i + |sub|..];
      assert s == a + (sub + b);
    }
    if a: string, b: string :| s == a + (sub + b) {
      assert s[|a|..|a| + |sub|] == sub;
      assert StandsAt(s, sub, |a|);
    }
  }

  lemma MarkedIff(d: Disk, rel: string)
    requires WellFormed(d)
    ensures Marked(d, rel) <==> CarriesMarker(d, rel)
  {
    if rel in d.present {
      ContainsIff(d.content[rel], MARKER);
    }
  }

  /** The manifest, which no plan ever names, claims the file. */
  ghost predicate OwnedByManifest(d: Disk, rel: string)
    requires WellFormed(d)
  {
    && "efi/wootc/wootc-owned.txt" in d.present
    && var owned := ReadManifest(d.content["efi/wootc/wootc-owned.txt"]); owned.Some? && rel in owned.value
  }

  /** Files that older versions left unrecorded: five of the product's own, and the menus that carry its marker. */
  ghost predicate LeftUnrecorded(d: Disk, rel: string)
    requires WellFormed(d)
  {
    || rel in {"efi/wootc/deployer-vmlinuz", "efi/wootc/deployer-initramfs.img", "efi/wootc/phase2-vmlinuz",
               "efi/wootc/phase2-initramfs.img", "efi/wootc/wubildr.efi"}
    || (rel in {"efi/fedora/grub.cfg", "efi/redhat/grub.cfg", "efi/wootc/grub.cfg", "loader/loader.conf"} && CarriesMarker(d, rel))
  }

  /** Shared boot files that a marked menu beside them attributes to the product. */
  ghost predicate AttributedByMenu(d: Disk, rel: string)
    requires WellFormed(d)
  {
    || (rel in {"efi/fedora/shimx64.efi", "efi/fedora/grubx64.efi", "efi/fedora/mmx64.efi"} && CarriesMarker(d, "efi/fedora/grub.cfg"))
    || (rel in {"efi/systemd/shimx64.efi", "efi/systemd/grubx64.efi", "efi/systemd/systemd-bootx64.efi",
                "loader/entries/wootc-deployer.conf", "loader/entries/wootc.conf"} && CarriesMarker(d, "loader/loader.conf"))
  }

  lemma LeftUnrecordedIff(d: Disk, rel: string)
    requires WellFormed(d)
    ensures LeftUnrecorded(d, rel) <==> rel in PRODUCT || (rel in MENUS && Marked(d, rel))
  {
    ProductSpelled();
    MenusSpelled();
    MarkedIff(d, rel);
  }

  lemma AttributedIff(d: Disk, rel: string)
    requires WellFormed(d)
    ensures AttributedByMenu(d, rel) <==>
              (rel in FEDORA_FILES && Marked(d, FEDORA_MENU)) || (rel in SYSTEMD_FILES + LOADER_ENTRIES && Marked(d, LOADER_MENU))
  {
    MenusSpelled();
    SharedSpelled();
    MarkedIff(d, FEDORA_MENU);
    MarkedIff(d, LOADER_MENU);
  }

  lemma OwnedIff(d: Disk, rel: string)
    requires WellFormed(d) && Owned(d).Some?
    ensures rel in Owned(d).value <==> OwnedByManifest(d, rel)
  {
    MenusSpelled();
  }

  lemma SharedIsRecorded(rel: string)
    requires rel in FEDORA_FILES + SYSTEMD_FILES + LOADER_ENTRIES
    ensures !Unrecorded(rel)
  {
    ProductSpelled();
    MenusSpelled();
    SharedSpelled();
  }

  /** The plan, name by name: what the manifest claims, what was left unrecorded, and without a manifest what a menu attributes. */
  lemma PlanIff(d: Disk, rel: string)
    requires WellFormed(d) && Plan(d).Some?
    ensures rel in Plan(d).value <==>
              && rel != MANIFEST
              && (OwnedByManifest(d, rel) || LeftUnrecorded(d, rel) || (MANIFEST !in d.present && AttributedByMenu(d, rel)))
  {
    LeftUnrecordedIff(d, rel);
    AttributedIff(d, rel);
    OwnedIff(d, rel);
    PlanGlue(d, rel, LeftUnrecorded(d, rel), AttributedByMenu(d, rel));
  }

  lemma PlanGlue(d: Disk, rel: string, left: bool, attributed: bool)
    requires WellFormed(d) && Plan(d).Some?
    requires left <==> rel in PRODUCT || (rel in MENUS && Marked(d, rel))
    requires attributed <==> (rel in FEDORA_FILES && Marked(d, FEDORA_MENU)) || (rel in SYSTEMD_FILES + LOADER_ENTRIES && Marked(d, LOADER_MENU))
    ensures rel in Plan(d).value <==>
              rel != MANIFEST && (rel in Owned(d).value || left || (MANIFEST !in d.present && attributed))
  {
    if rel in FEDORA_FILES + SYSTEMD_FILES + LOADER_ENTRIES {
      SharedIsRecorded(rel);
    }
  }

  lemma ProductSpelled()
    ensures PRODUCT == {"efi/wootc/deployer-vmlinuz", "efi/wootc/deployer-initramfs.img", "efi/wootc/phase2-vmlinuz",
                        "efi/wootc/phase2-initramfs.img", "efi/wootc/wubildr.efi"}
  {
    DeployerSpelled();
    PhaseTwoSpelled();
    assert WOOTC + "wubildr.efi" == "efi/wootc/wubildr.efi";
  }

  lemma DeployerSpelled()
    ensures WOOTC + "deployer-vmlinuz" == "efi/wootc/deployer-vmlinuz"
    ensures WOOTC + "deployer-initramfs.img" == "efi/wootc/deployer-initramfs.img"
  {
  }

  lemma PhaseTwoSpelled()
    ensures WOOTC + "phase2-vmlinuz" == "efi/wootc/phase2-vmlinuz"
    ensures WOOTC + "phase2-initramfs.img" == "efi/wootc/phase2-initramfs.img"
  {
  }

  lemma MenusSpelled()
    ensures MANIFEST == "efi/wootc/wootc-owned.txt" && FEDORA_MENU == "efi/fedora/grub.cfg" && LOADER_MENU == "loader/loader.conf"
    ensures MENUS == {"efi/fedora/grub.cfg", "efi/redhat/grub.cfg", "efi/wootc/grub.cfg", "loader/loader.conf"}
  {
    assert WOOTC + "grub.cfg" == "efi/wootc/grub.cfg";
  }

  lemma SharedSpelled()
    ensures FEDORA_FILES == {"efi/fedora/shimx64.efi", "efi/fedora/grubx64.efi", "efi/fedora/mmx64.efi"}
    ensures SYSTEMD_FILES == {"efi/systemd/shimx64.efi", "efi/systemd/grubx64.efi", "efi/systemd/systemd-bootx64.efi"}
    ensures LOADER_ENTRIES == {"loader/entries/wootc-deployer.conf", "loader/entries/wootc.conf"}
  {
    FedoraSpelled();
    SystemdSpelled();
    SystemdBootSpelled();
    EntriesSpelled();
  }

  lemma FedoraSpelled()
    ensures FEDORA + "shimx64.efi" == "efi/fedora/shimx64.efi" && FEDORA + "grubx64.efi" == "efi/fedora/grubx64.efi"
    ensures FEDORA + "mmx64.efi" == "efi/fedora/mmx64.efi"
  {
  }

  lemma SystemdSpelled()
    ensures SYSTEMD + "shimx64.efi" == "efi/systemd/shimx64.efi" && SYSTEMD + "grubx64.efi" == "efi/systemd/grubx64.efi"
  {
  }

  lemma SystemdBootSpelled()
    ensures SYSTEMD + "systemd-bootx64.efi" == "efi/systemd/systemd-bootx64.efi"
  {
  }

  lemma EntriesSpelled()
    ensures LOADER + "entries/wootc-deployer.conf" == "loader/entries/wootc-deployer.conf"
    ensures LOADER + "entries/wootc.conf" == "loader/entries/wootc.conf"
  {
  }

  /** What may be removed at all: the product's own directory, and the shared names it has ever used. */
  lemma AllowedIff(rel: string)
    ensures Allowed(rel) <==>
              || "efi/wootc/" <= Normalize(rel)
              || Normalize(rel) in {"efi/fedora/grub.cfg", "efi/fedora/shimx64.efi", "efi/fedora/grubx64.efi", "efi/fedora/mmx64.efi",
                                    "efi/redhat/grub.cfg", "efi/systemd/shimx64.efi", "efi/systemd/grubx64.efi",
                                    "efi/systemd/systemd-bootx64.efi", "loader/loader.conf",
                                    "loader/entries/wootc-deployer.conf", "loader/entries/wootc.conf"}
  {
    MenusSpelled();
    SharedSpelled();
  }

  const WINDOWS: string := "efi/microsoft/"
  const FALLBACK: string := "efi/boot/"

  /** No claim can authorize removing Windows' loader or the firmware's fallback loader. */
  lemma ForeignNamespacesAreSafe(rel: string)
    requires Allowed(rel)
    ensures !HasPrefix(Normalize(rel), WINDOWS) && !HasPrefix(Normalize(rel), FALLBACK)
  {
    var r := Normalize(rel);
    if HasPrefix(r, WOOTC) {
      assert r[4] == WOOTC[4] == 'w';
    } else {
      assert r[0] == 'l' || r[4] == 'f' || r[4] == 's' || r[4] == 'r';
    }
    assert WINDOWS[4] == 'm' && FALLBACK[4] == 'b' && WINDOWS[0] == FALLBACK[0] == 'e';
  }

  // ---- crashes during a cleanup --------------------------------------------------------

  /** The disk a finished cleanup leaves. */
  function Swept(d: Disk): Disk
    requires WellFormed(d) && Plan(d).Some?
  {
    d.(present := d.present - Plan(d).value - {MANIFEST})
  }

  /** s can be seen while d is cleaned: some planned files are gone, the manifest only when all are. */
  predicate Between(d: Disk, s: Disk)
    requires WellFormed(d) && Plan(d).Some?
  {
    && s.content == d.content && Swept(d).present <= s.present <= d.present
    && (MANIFEST in d.present && MANIFEST !in s.present ==> s == Swept(d))
  }

  lemma UnrecordedIsNoManifest()
    ensures MANIFEST !in PRODUCT && MANIFEST !in MENUS
  {
  }

  /**
   With a manifest, a cleanup cut short anywhere can be finished: the plan is worked
   out again from what is left, asks for nothing new, and ends at the same disk.
   */
  lemma PlanOutlivesCrash(d: Disk, s: Disk)
    requires WellFormed(d) && Plan(d).Some? && MANIFEST in d.present && Between(d, s)
    ensures WellFormed(s) && Plan(s).Some? && Plan(s).value <= Plan(d).value && Swept(s) == Swept(d)
  {
    UnrecordedIsNoManifest();
    assert forall menu :: Marked(s, menu) ==> Marked(d, menu);
    if MANIFEST in s.present {
      assert Owned(s) == Owned(d);
      forall rel | rel in s.present && rel in Plan(d).value
        ensures rel in Plan(s).value
      {
        if rel in MENUS && Marked(d, rel) {
          assert Marked(s, rel);
        }
      }
    } else {
      forall menu | menu in MENUS
        ensures !Marked(s, menu)
      {
        assert Marked(s, menu) ==> Unrecorded(menu);
      }
      assert Legacy(s) == PRODUCT;
    }
  }

  /** The files the deletion loop visits, in order. */
  ghost function Victims(d: Disk): seq<string>
    requires WellFormed(d) && Plan(d).Some?
  {
    Sorted(Plan(d).value * d.present)
  }

  /** The disk after the first k deletions. */
  ghost function Step(d: Disk, k: nat): Disk
    requires WellFormed(d) && Plan(d).Some? && k <= |Victims(d)|
  {
    d.(present := d.present - Front(Victims(d), k))
  }

  function Front(q: seq<string>, k: nat): set<string>
    requires k <= |q|
  {
    set rel | rel in q[..k]
  }

  /** The names of q that exist, in the order of q. */
  function Kept(q: seq<string>, present: set<string>): seq<string> {
    if q == [] then []
    else (if q[0] in present then [q[0]] else []) + Kept(q[1..], present)
  }

  lemma {:induction false} KeptGrows(q: seq<string>, rel: string, present: set<string>)
    ensures Kept(q + [rel], present) == Kept(q, present) + if rel in present then [rel] else []
  {
    if q != [] {
      KeptGrows(q[1..], rel, present);
      assert (q + [rel])[1..] == q[1..] + [rel];
    }
  }

  /** Filtering the sorted plan is sorting the filtered plan. */
  lemma {:induction false} KeptIsSorted(s: set<string>, present: set<string>)
    ensures Kept(Sorted(s), present) == Sorted(s * present)
    decreases |s|
  {
    if s != {} {
      var m := Least(s);
      var rest := s - {m};
      KeptIsSorted(rest, present);
      assert Sorted(s)[1..] == Sorted(rest);
      if m in present {
        LeastUnique(m, Least(s * present), s * present);
        assert s * present - {m} == rest * present;
      } else {
        assert s * present == rest * present;
      }
    }
  }

  lemma StepGrows(d: Disk, k: nat)
    requires WellFormed(d) && Plan(d).Some? && k < |Victims(d)|
    ensures Step(d, k + 1).present == Step(d, k).present - {Victims(d)[k]}
  {
  }

  /** The last step has removed the whole plan. */
  lemma StepsEnd(d: Disk)
    requires WellFormed(d) && Plan(d).Some?
    ensures Step(d, |Victims(d)|).present == d.present - Plan(d).value
  {
    var v := Victims(d);
    assert v[..|v|] == v;
    SortedElements(Plan(d).value * d.present);
  }

  /** Every intermediate disk of an undisturbed deletion leads to the same end when started over. */
  ghost predicate SurvivesCrashes(d: Disk)
    requires WellFormed(d) && Plan(d).Some?
  {
    forall k :: 0 <= k <= |Victims(d)| ==>
      var s := Step(d, k);
      Plan(s).Some? && Swept(s) == Swept(d)
  }

  lemma {:induction false} LessUnderPrefix(p: string, a: string, b: string)
    requires Less(a, b)
    ensures Less(p + a, p + b)
  {
    if p == "" {
      assert p + a == a && p + b == b;
    } else {
      LessUnderPrefix(p[1..], a, b);
      assert (p + a)[1..] == p[1..] + a && (p + b)[1..] == p[1..] + b;
    }
  }

  lemma FedoraMenuComesFirst(rel: string)
    requires rel in FEDORA_FILES
    ensures Less(FEDORA_MENU, rel)
  {
    LessUnderPrefix("grub", ".cfg", "x64.efi");
    assert "grub" + ".cfg" == "grub.cfg" && "grub" + "x64.efi" == "grubx64.efi";
    LessUnderPrefix(FEDORA, "grub.cfg", "grubx64.efi");
    LessUnderPrefix(FEDORA, "grub.cfg", "shimx64.efi");
    LessUnderPrefix(FEDORA, "grub.cfg", "mmx64.efi");
  }

  lemma LoaderMenuComesLast(rel: string)
    requires rel in SYSTEMD_FILES + LOADER_ENTRIES
    ensures Less(rel, LOADER_MENU)
  {
    LessUnderPrefix(LOADER, "entries/wootc-deployer.conf", "loader.conf");
    LessUnderPrefix(LOADER, "entries/wootc.conf", "loader.conf");
    assert rel in SYSTEMD_FILES ==> rel[0] == 'e';
    assert LOADER_MENU[0] == 'l';
  }

  lemma OthersAreElsewhere(rel: string)
    requires rel in PRODUCT + SYSTEMD_FILES + LOADER_ENTRIES + MENUS - {FEDORA_MENU}
    ensures |rel| > 4 && rel[4] != 'f'
  {
  }

  /** The fedora binaries are attributed by the fedora menu alone. */
  lemma OnlyTheMenuAttributes(d: Disk, rel: string)
    requires WellFormed(d) && rel in FEDORA_FILES
    ensures rel in Legacy(d) <==> Marked(d, FEDORA_MENU)
    ensures rel != MANIFEST && rel != FEDORA_MENU
  {
    assert rel[4] == 'f' && |rel| != |FEDORA_MENU|;
    if rel in PRODUCT + SYSTEMD_FILES + LOADER_ENTRIES + MENUS - {FEDORA_MENU} {
      OthersAreElsewhere(rel);
    }
  }

  lemma PlaceOf(s: set<string>, a: string, b: string) returns (i: nat, j: nat)
    requires a in s && b in s && Less(a, b)
    ensures i < j < |Sorted(s)| && Sorted(s)[i] == a && Sorted(s)[j] == b
  {
    SortedElements(s);
    i :| 0 <= i < |Sorted(s)| && Sorted(s)[i] == a;
    j :| 0 <= j < |Sorted(s)| && Sorted(s)[j] == b;
    LessIrreflexive(a);
    if j < i {
      SortedPlaces(s, j, i);
      LessTransitive(a, b, a);
    }
  }

  /** A file visited before another is gone first. */
  lemma GoneFirst(s: set<string>, a: string, b: string, k: nat)
    requires a in s && b in s && Less(a, b) && k <= |Sorted(s)|
    ensures b in Front(Sorted(s), k) ==> a in Front(Sorted(s), k)
  {
    var q := Sorted(s);
    if b in Front(q, k) {
      var i, j := PlaceOf(s, a, b);
      var m :| 0 <= m < k && q[m] == b;
      if m < i {
        SortedPlaces(s, m, i);
        LessTransitive(a, b, a);
        LessIrreflexive(a);
      }
      assert m != i by {
        LessIrreflexive(a);
      }
      assert q[..k][i] == a;
    }
  }

  /** The loop visits planned files that exist, so the whole plan stays within reach of every step. */
  lemma StepIsBetween(d: Disk, k: nat)
    requires WellFormed(d) && Plan(d).Some? && k <= |Victims(d)|
    ensures WellFormed(Step(d, k)) && Between(d, Step(d, k))
  {
    SortedElements(Plan(d).value * d.present);
    assert forall rel :: rel in Front(Victims(d), k) ==> rel in Victims(d);
  }

  /** What one deletion loop forgets when there is no manifest: a file the menu attributed. */
  lemma ForgottenFile(d: Disk, rel: string)
    requires WellFormed(d) && MANIFEST !in d.present
    requires Marked(d, FEDORA_MENU) && rel in FEDORA_FILES && rel in d.present
    ensures Plan(d).Some? && !SurvivesCrashes(d)
  {
    UnrecordedIsNoManifest();
    OnlyTheMenuAttributes(d, rel);
    FedoraMenuComesFirst(rel);
    var s := Plan(d).value * d.present;
    assert FEDORA_MENU in s && rel in s;
    var i, j := PlaceOf(s, FEDORA_MENU, rel);
    var k := i + 1;
    var cut := Step(d, k);
    StepIsBetween(d, k);
    assert Victims(d)[..k][i] == FEDORA_MENU;
    assert rel !in Front(Victims(d), k) by {
      if rel in Front(Victims(d), k) {
        var m :| 0 <= m < k && Victims(d)[m] == rel;
        SortedPlaces(s, m, j);
        LessIrreflexive(rel);
      }
    }
    OnlyTheMenuAttributes(cut, rel);
    assert rel in Swept(cut).present && rel !in Swept(d).present;
  }

  lemma NothingForgotten(d: Disk, k: nat)
    requires WellFormed(d) && MANIFEST !in d.present && k <= |Victims(d)|
    requires Marked(d, FEDORA_MENU) ==> forall rel :: rel in FEDORA_FILES ==> rel !in d.present
    ensures var s := Step(d, k); WellFormed(s) && Plan(s).Some? && Swept(s) == Swept(d)
  {
    var s := Step(d, k);
    StepIsBetween(d, k);
    var plan := Plan(d).value * d.present;
    forall rel | rel in s.present && rel in Plan(d).value
      ensures rel in Plan(s).value
    {
      if rel in MENUS && Marked(d, rel) {
        assert Marked(s, rel);
      } else if rel in SYSTEMD_FILES + LOADER_ENTRIES && Marked(d, LOADER_MENU) {
        UnrecordedIsNoManifest();
        LoaderMenuComesLast(rel);
        GoneFirst(plan, rel, LOADER_MENU, k);
        assert Marked(s, LOADER_MENU);
      }
    }
    assert forall menu :: Marked(s, menu) ==> Marked(d, menu);
    assert Plan(s).value <= Plan(d).value;
  }

  /**
   A cleanup survives a power cut between any two deletions exactly when there is a
   manifest, or no fedora binary hangs on the fedora menu: that menu sorts before the
   binaries it attributes, so it is the evidence that goes first.
   */
  lemma CleanupSurvivesCrashesIff(d: Disk)
    requires WellFormed(d) && Plan(d).Some?
    ensures SurvivesCrashes(d) <==>
              MANIFEST in d.present || !Marked(d, FEDORA_MENU) || FEDORA_FILES !! d.present
  {
    if MANIFEST in d.present {
      forall k | 0 <= k <= |Victims(d)|
        ensures var s := Step(d, k); Plan(s).Some? && Swept(s) == Swept(d)
      {
        StepIsBetween(d, k);
        PlanOutlivesCrash(d, Step(d, k));
      }
    } else if Marked(d, FEDORA_MENU) && exists rel :: rel in FEDORA_FILES && rel in d.present {
      var rel :| rel in FEDORA_FILES && rel in d.present;
      ForgottenFile(d, rel);
    } else {
      forall k | 0 <= k <= |Victims(d)|
        ensures var s := Step(d, k); Plan(s).Some? && Swept(s) == Swept(d)
      {
        NothingForgotten(d, k);
      }
    }
  }

  // ---- the cleanup ---------------------------------------------------------------------

  /** How the file system treats one operation. */
  datatype Fault = Fault(
    blocked: bool,       // the name cannot be looked up
    unreadable: bool,    // the file cannot be read
    deleted: bool,       // deleting takes effect
    reported: bool,      // deleting reports success
    back: set<string>)   // what another program restores before the next deletion

  const HONEST := Fault(false, false, true, true, {})

  class Partition {
    const content: map<string, string>
    const faults: nat -> Fault
    var present: set<string>
    var clock: nat
    ghost var history: seq<Disk>
    ghost var failures: nat   // deletions that were not seen to work

    constructor (disk: Disk, faults: nat -> Fault)
      requires WellFormed(disk)
      ensures Valid() && Now() == disk && this.faults == faults && history == [disk]
    {
      content, present, this.faults := disk.content, disk.present, faults;
      clock, history, failures := 0, [disk], 0;
    }

    function Now(): Disk
      reads this
    {
      Disk(content, present)
    }

    ghost predicate Valid()
      reads this
    {
      WellFormed(Now()) && history != [] && history[|history| - 1] == Now()
    }

    ghost predicate Honest() {
      forall n: nat :: faults(n) == HONEST
    }

    /** Since `was`, the partition has only shown states of a cleanup of d. */
    ghost predicate OnlyBetween(was: nat, d: Disk)
      requires WellFormed(d) && Plan(d).Some?
      reads this
    {
      forall i :: was <= i < |history| ==> Between(d, history[i])
    }

    method Tick() returns (f: Fault)
      requires Valid()
      modifies this`clock
      ensures Valid() && f == faults(old(clock))
    {
      f := faults(clock);
      clock := clock + 1;
    }

    /** Whether the file exists; None when the name cannot be resolved. */
    method Resolve(rel: string) returns (r: Option<bool>)
      requires Valid()
      modifies this`clock
      ensures Valid() && (r.Some? ==> r.value == (rel in present)) && (Honest() ==> r.Some?)
    {
      var f := Tick();
      r := if f.blocked then None else Some(rel in present);
    }

    /** The text of an existing file. */
    method Read(rel: string) returns (r: Option<string>)
      requires Valid() && rel in present
      modifies this`clock
      ensures Valid() && (r.Some? ==> r.value == content[rel]) && (Honest() ==> r.Some?)
    {
      var f := Tick();
      r := if f.unreadable then None else Some(content[rel]);
    }

    /** Whether the menu exists and carries the marker. */
    method ReadMarked(rel: string) returns (r: Option<bool>)
      requires Valid()
      modifies this`clock
      ensures Valid() && (r.Some? ==> r.value == Marked(Now(), rel)) && (Honest() ==> r.Some?)
    {
      var found := Resolve(rel);
      if found != Some(true) {
        return found;
      }
      var text := Read(rel);
      r := if text.None? then None else Some(Contains(text.value, MARKER));
    }

    method ClaimsOfMenu(menu: string) returns (r: Option<set<string>>)
      requires Valid()
      modifies this`clock
      ensures Valid() && (r.Some? ==> r.value == MenuClaims(Now(), menu)) && (Honest() ==> r.Some?)
    {
      var marked := ReadMarked(menu);
      if marked.None? {
        return None;
      }
      var claims: set<string> := {};
      if marked.value {
        claims := {menu};
        if menu == FEDORA_MENU {
          claims := claims + FEDORA_FILES;
        } else if menu == LOADER_MENU {
          claims := claims + (LOADER_ENTRIES + SYSTEMD_FILES);
        }
      }
      r := Some(claims);
    }

    method LegacyClaims() returns (r: Option<set<string>>)
      requires Valid()
      modifies this`clock
      ensures Valid() && (r.Some? ==> r.value == Legacy(Now())) && (Honest() ==> r.Some?)
    {
      var claims: set<string> := {};
      for k := 0 to |VENDOR_MENUS|
        invariant Valid() && claims == VendorClaims(Now(), k)
      {
        var menu := ClaimsOfMenu(VENDOR_MENUS[k]);
        if menu.None? {
          return None;
        }
        claims := claims + menu.value;
      }
      var loader := ClaimsOfMenu(LOADER_MENU);
      if loader.None? {
        return None;
      }
      LegacyMenuByMenu(Now());
      r := Some(claims + loader.value + PRODUCT);
    }

    /** The manifest's claims, and whether there is a manifest. */
    method ReadOwned() returns (r: Option<set<string>>, hasManifest: bool)
      requires Valid()
      modifies this`clock
      ensures Valid()
      ensures r.Some? ==> r == Owned(Now()) && hasManifest == (MANIFEST in present)
      ensures Honest() ==> r == Owned(Now())
    {
      var found := Resolve(MANIFEST);
      if found.None? {
        return None, false;
      }
      hasManifest := found.value;
      if !hasManifest {
        return Some({}), false;
      }
      var text := Read(MANIFEST);
      r := if text.None? then None else ReadManifest(text.value);
    }

    /** A manifest is authoritative but for the files that older versions did not record. */
    method AddLegacy(owned: set<string>, legacy: set<string>, hasManifest: bool) returns (r: set<string>)
      ensures r == owned + set rel | rel in legacy && (!hasManifest || Unrecorded(rel))
    {
      r := owned;
      var todo := legacy;
      while todo != {}
        invariant todo <= legacy
        invariant r == owned + set rel | rel in legacy - todo && (!hasManifest || Unrecorded(rel))
        decreases todo
      {
        var rel :| rel in todo;
        if !hasManifest || Unrecorded(rel) {
          r := r + {rel};
        }
        todo := todo - {rel};
      }
    }

    method CleanupClaims() returns (r: Option<set<string>>, hasManifest: bool)
      requires Valid()
      modifies this`clock
      ensures Valid()
      ensures r.Some? ==> r == Plan(Now()) && hasManifest == (MANIFEST in present)
      ensures Honest() ==> r == Plan(Now())
    {
      var owned;
      owned, hasManifest := ReadOwned();
      if owned.None? {
        return None, hasManifest;
      }
      var legacy := LegacyClaims();
      if legacy.None? {
        return None, hasManifest;
      }
      var all := AddLegacy(owned.value, legacy.value, hasManifest);
      r := Some(all - {MANIFEST});
    }

    /** One deletion: it may do nothing, and what it reports may be wrong. */
    method Remove(rel: string) returns (reported: bool)
      requires Valid()
      modifies this`present, this`clock, this`history
      ensures Valid() && history == old(history) + [Now()]
      ensures present == old(present) - {rel} || (!Honest() && present == old(present))
      ensures reported == faults(old(clock)).reported
    {
      var f := Tick();
      if f.deleted {
        present := present - {rel};
      }
      history := history + [Now()];
      reported := f.reported;
    }

    /** Another program restores files that existed when the cleanup began. */
    method Restore(was: set<string>)
      requires Valid() && was <= content.Keys
      modifies this`present, this`clock, this`history
      ensures Valid() && old(present) <= present <= old(present) + was
      ensures old(history) <= history && forall i :: |old(history)| <= i < |history| ==> history[i] == Now()
      ensures Quiet() ==> present == old(present) && history == old(history)
    {
      var f := Tick();
      if f.back * was != {} {
        present := present + f.back * was;
        history := history + [Now()];
      }
    }

    ghost predicate Quiet() {
      forall n: nat :: faults(n).back == {}
    }

    /** Since `was`, the partition has only shown steps of the undisturbed deletion of d's plan. */
    ghost predicate OnlySteps(was: nat, d: Disk)
      requires WellFormed(d) && Plan(d).Some?
      reads this
    {
      forall i :: was <= i < |history| ==> exists k :: 0 <= k <= |Victims(d)| && history[i] == Step(d, k)
    }

    /** From `was` on, the history shows the first n steps, one after the other. */
    ghost predicate ShowsSteps(was: nat, d: Disk, n: nat)
      requires WellFormed(d) && Plan(d).Some? && n <= |Victims(d)|
      reads this
    {
      was + n <= |history| && forall i :: was <= i < was + n ==> history[i] == Step(d, i - was + 1)
    }

    /** Nothing but planned files has been removed so far. */
    ghost predicate Underway(d: Disk)
      reads this
    {
      && WellFormed(d) && Plan(d).Some? && content == d.content
      && d.present - Plan(d).value <= present <= d.present
    }

    /** The existing ones among the planned files; None when one cannot be looked up. */
    method Preflight(rels: seq<string>) returns (r: Option<seq<string>>)
      requires Valid()
      modifies this`clock
      ensures Valid() && (r.Some? ==> r.value == Kept(rels, present)) && (Honest() ==> r.Some?)
    {
      var paths := [];
      assert rels[..0] == [];
      for k := 0 to |rels|
        invariant Valid() && paths == Kept(rels[..k], present)
      {
        var found := Resolve(rels[k]);
        if found.None? {
          return None;
        }
        KeptGrows(rels[..k], rels[k], present);
        assert rels[..k + 1] == rels[..k] + [rels[k]];
        if found.value {
          paths := paths + [rels[k]];
        }
      }
      assert rels[..|rels|] == rels;
      r := Some(paths);
    }

    /** Delete and look again: success means the file is gone. */
    method RemoveVerified(rel: string) returns (ok: bool)
      requires Valid()
      modifies this`present, this`clock, this`history, this`failures
      ensures Valid() && history == old(history) + [Now()]
      ensures present == old(present) - {rel} || (!ok && present == old(present))
      ensures ok ==> faults(old(clock)).reported
      ensures failures == old(failures) + if ok then 0 else 1
      ensures Honest() ==> ok
    {
      var reported := Remove(rel);
      if !reported {
        failures := failures + 1;
        return false;
      }
      var left := Resolve(rel);
      ok := left == Some(false);
      failures := failures + if ok then 0 else 1;
    }

    /** One round of the deletion loop. */
    method RemoveNext(rel: string, was: set<string>, ghost d: Disk, ghost k: nat) returns (ok: bool)
      requires Valid() && Underway(d) && was == d.present && k < |Victims(d)| && rel == Victims(d)[k]
      requires Quiet() ==> Now() == Step(d, k)
      modifies this`present, this`clock, this`history, this`failures
      ensures Valid() && Underway(d) && old(history) <= history && OnlyBetween(|old(history)|, d)
      ensures failures == old(failures) + if ok then 0 else 1
      ensures Quiet() ==> OnlySteps(|old(history)|, d) && (ok ==> Now() == Step(d, k + 1))
      ensures Honest() ==> ok && history == old(history) + [Now()]
    {
      assert Victims(d)[k] in Victims(d);
      SortedElements(Plan(d).value * d.present);
      StepGrows(d, k);
      Restore(was);
      ok := RemoveVerified(rel);
    }

    method RemoveAll(paths: seq<string>, ghost d: Disk) returns (ok: bool)
      requires Valid() && Plan(Now()).Some? && d == Now() && paths == Victims(d)
      modifies this`present, this`clock, this`history, this`failures
      ensures Valid() && Underway(d) && old(history) <= history && OnlyBetween(|old(history)|, d)
      ensures failures == old(failures) + if ok then 0 else 1
      ensures Quiet() ==> OnlySteps(|old(history)|, d)
      ensures Honest() ==> ok && ShowsSteps(|old(history)|, d, |Victims(d)|) && Now() == Step(d, |Victims(d)|)
    {
      var was := present;
      for k := 0 to |paths|
        invariant Valid() && Underway(d) && old(history) <= history
        invariant OnlyBetween(|old(history)|, d) && failures == old(failures)
        invariant Quiet() ==> Now() == Step(d, k) && OnlySteps(|old(history)|, d)
        invariant Honest() ==> |history| == |old(history)| + k && ShowsSteps(|old(history)|, d, k)
      {
        ok := RemoveNext(paths[k], was, d, k);
        if !ok {
          return;
        }
      }
      ok := true;
    }

    /** Look at every planned file again; success means none exists. */
    method Recheck(rels: seq<string>) returns (ok: bool)
      requires Valid()
      modifies this`clock
      ensures Valid() && (ok ==> forall rel :: rel in rels ==> rel !in present)
      ensures Honest() && (forall rel :: rel in rels ==> rel !in present) ==> ok
    {
      for k := 0 to |rels|
        invariant Valid() && forall j :: 0 <= j < k ==> rels[j] !in present
      {
        assert rels[k] in rels;
        var found := Resolve(rels[k]);
        if found != Some(false) {
          return false;
        }
      }
      ok := true;
    }

    /** The plan in order, and those of its files that exist; None when the cleanup must not start. */
    method Survey() returns (rels: Option<seq<string>>, paths: seq<string>, hasManifest: bool)
      requires Valid()
      modifies this`clock
      ensures Valid()
      ensures rels.Some? ==> Plan(Now()).Some? && AllAllowed(Plan(Now()).value) && rels.value == Sorted(Plan(Now()).value)
                             && paths == Victims(Now()) && hasManifest == (MANIFEST in present)
      ensures Honest() && Plan(Now()).Some? && AllAllowed(Plan(Now()).value) ==> rels.Some?
    {
      var claims;
      claims, hasManifest := CleanupClaims();
      if claims.None? || !AllAllowed(claims.value) {
        return None, [], hasManifest;
      }
      var sorted := SortStrings(claims.value);
      var existing := Preflight(sorted);
      if existing.None? {
        return None, [], hasManifest;
      }
      KeptIsSorted(claims.value, present);
      return Some(sorted), existing.value, hasManifest;
    }

    /** Check that the plan is done, and only then give up the evidence for it. */
    method Finish(rels: seq<string>, hasManifest: bool, ghost d: Disk) returns (ok: bool)
      requires Valid() && Underway(d) && rels == Sorted(Plan(d).value) && hasManifest == (MANIFEST in d.present)
      modifies this`present, this`clock, this`history, this`failures
      ensures Valid() && old(history) <= history && OnlyBetween(|old(history)|, d)
      ensures ok ==> Now() == Swept(d)
      ensures failures <= old(failures) + (if ok then 0 else 1)
      ensures !hasManifest ==> history == old(history)
      ensures Honest() && old(present) == d.present - Plan(d).value ==> ok
    {
      SortedElements(Plan(d).value);
      ok := Recheck(rels);
      if ok && hasManifest {
        ok := RemoveVerified(MANIFEST);
      }
    }

    /**
     Remove the planned files, then the manifest. Success means every planned file and
     the manifest are gone and nothing else is; on the way the partition only shows
     states of this cleanup, and without interference exactly its steps. The first deletion
     that is not seen to work ends it.
     */
    method CleanupOwnedFiles() returns (ok: bool)
      requires Valid()
      modifies this`present, this`clock, this`history, this`failures
      ensures Valid() && old(history) <= history
      ensures Plan(old(Now())).None? || !AllAllowed(Plan(old(Now())).value) ==> !ok && history == old(history)
      ensures Plan(old(Now())).Some? ==> OnlyBetween(|old(history)|, old(Now()))
      ensures ok ==> Plan(old(Now())).Some? && Now() == Swept(old(Now()))
      ensures failures <= old(failures) + (if ok then 0 else 1)
      ensures Plan(old(Now())).Some? && Quiet() && MANIFEST !in old(present) ==> OnlySteps(|old(history)|, old(Now()))
      ensures Honest() && Plan(old(Now())).Some? && AllAllowed(Plan(old(Now())).value) ==>
                ok && ShowsSteps(|old(history)|, old(Now()), |Victims(old(Now()))|)
    {
      ghost var d := Now();
      var rels, paths, hasManifest := Survey();
      if rels.None? {
        return false;
      }
      ok := RemoveAll(paths, d);
      if ok {
        StepsEnd(d);
        ok := Finish(rels.value, hasManifest, d);
      }
    }
  }
}
