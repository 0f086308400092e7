/**
 Merging the layers of an image into one inventory of kernel module files and firmware
 names, honouring the whiteout entries of each layer.
 */
module Layers {
  import opened Text

  /** What one layer removes and adds. */
  datatype Layer = Layer(whiteouts: seq<string>, moduleFiles: map<string, string>, firmware: set<string>)

  const FIRMWARE: string := "usr/lib/firmware"

  // ---- whiteout entries ------------------------------------------------------------

  datatype Whiteout = Whiteout(path: string, isOpaque: bool)

  const MARKER: string := ".wh."
  const OPAQUE: string := ".wh..wh..opq"

  /** The index after the last slash, or 0. */
  function BaseStart(name: string): (k: nat)
    ensures k <= |name| && '/' !in name[k..]
    ensures k > 0 ==> name[k - 1] == '/'
  {
    if name == "" then 0
    else if name[|name| - 1] == '/' then |name|
    else
      var k := BaseStart(name[..|name| - 1]);
      assert name[k..] == name[..|name| - 1][k..] + [name[|name| - 1]];
      k
  }

  /** What an archive entry removes from the layers below, if it is a whiteout. */
  function WhiteoutTarget(name: string): Option<Whiteout> {
    var k := BaseStart(name);
    var dir, base := TrimSuffix(name[..k], "/"), name[k..];
    if base == OPAQUE then Some(Whiteout(dir, true))
    else if !HasPrefix(base, MARKER) || base == MARKER then None
    else if dir == "" then Some(Whiteout(base[|MARKER|..], false))
    else Some(Whiteout(dir + "/" + base[|MARKER|..], false))
  }

  /** The file itself, and everything below it when it is a directory. */
  predicate Hides(path: string, name: string) {
    name == path || HasPrefix(name, path + "/")
  }

  /** The name is the path itself or lies anywhere below it. */
  ghost predicate AtOrBelow(path: string, name: string) {
    name == path || exists rest: string :: name == path + ("/" + rest)
  }

  lemma HidesIff(path: string, name: string)
    ensures Hides(path, name) <==> AtOrBelow(path, name)
  {
    if HasPrefix(name, path + "/") {
      var rest := name[|path| + 1..];
      assert name == path + ("/" + rest);
    }
    if rest: string :| name == path + ("/" + rest) {
      assert path + ("/" + rest) == path + "/" + rest;
    }
  }

  lemma {:induction false} BaseStartOf(dir: string, base: string)
    requires '/' !in base
    ensures BaseStart(dir + "/" + base) == |dir| + 1
    decreases |base|
  {
    var name := dir + "/" + base;
    if base != "" {
      var shorter := base[..|base| - 1];
      assert name[|name| - 1] == base[|base| - 1];
      assert name[..|name| - 1] == dir + "/" + shorter;
      BaseStartOf(dir, shorter);
    }
  }

  /**
   The entry that a layer stores to remove dir/base is understood as that, unless base
   is empty or the very name that makes an opaque marker of it.
   */
  lemma PlainWhiteoutIff(dir: string, base: string)
    requires dir != "" && '/' !in base
    ensures WhiteoutTarget(dir + "/" + MARKER + base) == Some(Whiteout(dir + "/" + base, false))
            <==> base != "" && MARKER + base != OPAQUE
  {
    var entry := dir + "/" + (MARKER + base);
    assert dir + "/" + MARKER + base == entry;
    BaseStartOf(dir, MARKER + base);
    assert entry[..|dir| + 1] == dir + "/" && entry[|dir| + 1..] == MARKER + base;
    assert TrimSuffix(dir + "/", "/") == dir;
    assert (MARKER + base)[|MARKER|..] == base;
    if base == "" {
      assert MARKER + base == MARKER;
    }
  }

  lemma {:induction false} NoSlash(name: string)
    requires '/' !in name
    ensures BaseStart(name) == 0
  {
    if name != "" {
      NoSlash(name[..|name| - 1]);
    }
  }

  /** The same for what lies in the root. */
  lemma RootWhiteoutIff(base: string)
    requires '/' !in base
    ensures WhiteoutTarget(MARKER + base) == Some(Whiteout(base, false)) <==> base != "" && MARKER + base != OPAQUE
  {
    var entry := MARKER + base;
    NoSlash(entry);
    assert entry[0..] == entry && entry[..0] == "" && TrimSuffix("", "/") == "";
    assert entry[|MARKER|..] == base;
    if base == "" {
      assert entry == MARKER;
    }
  }

  /** An entry whose own name does not carry the marker removes nothing. */
  lemma OthersRemoveNothing(dir: string, base: string)
    requires '/' !in base && !(MARKER <= base)
    ensures WhiteoutTarget(dir + "/" + base) == None && WhiteoutTarget(base) == None
  {
    var entry := dir + "/" + base;
    BaseStartOf(dir, base);
    assert entry[|dir| + 1..] == base;
    NoSlash(base);
    assert base[0..] == base;
    assert MARKER <= OPAQUE;
  }

  /** The opaque marker of a directory hides everything below the directory, except at the root. */
  lemma OpaqueWhiteoutIff(dir: string)
    requires dir != "" ==> dir[|dir| - 1] != '/'
    ensures var entry := if dir == "" then OPAQUE else dir + "/" + OPAQUE;
            var target := WhiteoutTarget(entry);
            && target == Some(Whiteout(dir, true))
            && ((forall below: string :: below != "" && below[0] != '/' ==>
                   Hides(target.value.path, if dir == "" then below else dir + "/" + below))
                <==> dir != "")
  {
    var entry := if dir == "" then OPAQUE else dir + "/" + OPAQUE;
    if dir == "" {
      var k := BaseStart(OPAQUE);
      assert k == 0;
      assert OPAQUE[..0] == "" && OPAQUE[0..] == OPAQUE;
      var below: string := "a";
      assert "a"[0] != '/' && !Hides("", "a");
    } else {
      BaseStartOf(dir, OPAQUE);
      assert entry[..|dir| + 1] == dir + "/" && entry[|dir| + 1..] == OPAQUE;
      assert TrimSuffix(dir + "/", "/") == dir;
      forall below: string
        ensures Hides(dir, dir + "/" + below)
      {
        assert dir + "/" <= dir + "/" + below;
      }
    }
  }

  // ---- merging module files ----------------------------------------------------------

  /** Some whiteout of the layer is for the name or a directory above it. */
  ghost predicate Whites(layer: Layer, name: string) {
    exists w :: w in layer.whiteouts && AtOrBelow(w, name)
  }

  lemma RemovesIff(layer: Layer, name: string)
    ensures Removes(layer, name) <==> Whites(layer, name)
  {
    forall w
      ensures Hides(w, name) <==> AtOrBelow(w, name)
    {
      HidesIff(w, name);
    }
  }

  predicate Removes(layer: Layer, name: string) {
    exists w :: w in layer.whiteouts && Hides(w, name)
  }

  /** Whiteouts act on the layers below; the layer's own files are added after them. */
  function Merge(files: map<string, string>, layer: Layer): map<string, string> {
    (map name | name in files && !Removes(layer, name) :: files[name]) + layer.moduleFiles
  }

  function MergeAll(layers: seq<Layer>): map<string, string> {
    if layers == [] then map[] else Merge(MergeAll(layers[..|layers| - 1]), layers[|layers| - 1])
  }

  /** Layer k adds the data, and no layer above it adds or removes the file. */
  ghost predicate LastWriter(layers: seq<Layer>, k: nat, name: string, data: string) {
    && k < |layers| && name in layers[k].moduleFiles && layers[k].moduleFiles[name] == data
    && forall j :: k < j < |layers| ==> name !in layers[j].moduleFiles && !Whites(layers[j], name)
  }

  /** A file has data in the merged image if and only if some layer is the last to decide so. */
  lemma {:induction false} LastWriterWins(layers: seq<Layer>, name: string, data: string)
    ensures name in MergeAll(layers) && MergeAll(layers)[name] == data
            <==> exists k: nat :: LastWriter(layers, k, name, data)
  {
    if layers != [] {
      var below, top := layers[..|layers| - 1], layers[|layers| - 1];
      LastWriterWins(below, name, data);
      RemovesIff(top, name);
      forall k: nat
        ensures LastWriter(layers, k, name, data) <==>
                  if k < |below| then LastWriter(below, k, name, data) && name !in top.moduleFiles && !Whites(top, name)
                  else k == |below| && name in top.moduleFiles && top.moduleFiles[name] == data
      {
        LastWriterBelow(layers, k, name, data);
      }
      if name in top.moduleFiles {
        assert LastWriter(layers, |below|, name, data) <==> top.moduleFiles[name] == data;
      }
    }
  }

  lemma LastWriterBelow(layers: seq<Layer>, k: nat, name: string, data: string)
    requires layers != []
    ensures var below, top := layers[..|layers| - 1], layers[|layers| - 1];
            LastWriter(layers, k, name, data) <==>
              if k < |below| then LastWriter(below, k, name, data) && name !in top.moduleFiles && !Whites(top, name)
              else k == |below| && name in top.moduleFiles && top.moduleFiles[name] == data
  {
  }

  // ---- firmware names ------------------------------------------------------------------

  /** Firmware under one name, however it is compressed. */
  function NormalizeFirmware(name: string): string {
    WithoutCompression(TrimLeftChar(TrimPrefix(TrimSpace(name), "./"), '/'))
  }

  function WithoutCompression(name: string): string {
    if HasSuffix(name, ".xz") then TrimSuffix(name, ".xz")
    else if HasSuffix(name, ".zst") then TrimSuffix(name, ".zst")
    else TrimSuffix(name, ".gz")
  }

  /** The first character is neither a slash nor a blank, nor the dot of a leading ./ */
  predicate StartsPlainly(name: string) {
    name != "" && name[0] != '/' && !IsSpace(name[0]) && !HasPrefix(name, "./")
  }

  lemma PlainlyTrimmed(name: string)
    requires StartsPlainly(name) && !IsSpace(name[|name| - 1])
    ensures TrimLeftChar(TrimPrefix(TrimSpace(name), "./"), '/') == name
  {
    TrimmedIff(name);
  }

  /** Firmware goes by one name, whether it is stored plainly or compressed in any of the three ways. */
  lemma OneNameHoweverCompressed(name: string, ext: string)
    requires StartsPlainly(name) && ext in {".xz", ".zst", ".gz"}
    ensures NormalizeFirmware(name + ext) == name
  {
    var full := name + ext;
    assert full[0] == name[0] && full[|name|..] == ext && full[..|name|] == name;
    assert full[|full| - 1] == ext[|ext| - 1];
    assert ext[0] == '.' && (|name| > 1 ==> full[1] == name[1]) && (|name| == 1 ==> full[1] == ext[0]);
    PlainlyTrimmed(full);
    CompressionCut(name, ext);
  }

  lemma CompressionCut(name: string, ext: string)
    requires ext in {".xz", ".zst", ".gz"}
    ensures WithoutCompression(name + ext) == name
  {
    var full := name + ext;
    assert full[|name|..] == ext && full[..|name|] == name;
    assert forall k :: 0 <= k < |ext| ==> full[|name| + k] == ext[k];
    assert HasSuffix(full, ".xz") ==> full[|full| - 1] == 'z' && full[|full| - 2] == 'x';
    assert HasSuffix(full, ".zst") ==> full[|full| - 1] == 't';
  }

  /** A name without such an ending stays as it is. */
  lemma PlainNameStays(name: string)
    requires StartsPlainly(name) && !IsSpace(name[|name| - 1])
    requires !HasSuffix(name, ".xz") && !HasSuffix(name, ".zst") && !HasSuffix(name, ".gz")
    ensures NormalizeFirmware(name) == name
  {
    PlainlyTrimmed(name);
  }

  predicate HidesFirmware(path: string, name: string) {
    || path == FIRMWARE
    || (HasPrefix(path, FIRMWARE + "/") && Hides(NormalizeFirmware(path[|FIRMWARE| + 1..]), name))
  }

  predicate RemovesFirmware(layer: Layer, name: string) {
    exists w :: w in layer.whiteouts && HidesFirmware(w, name)
  }

  function MergeFirmware(names: set<string>, layer: Layer): set<string> {
    (set name | name in names && !RemovesFirmware(layer, name)) + (layer.firmware - {""})
  }

  function MergeAllFirmware(layers: seq<Layer>): set<string> {
    if layers == [] then {} else MergeFirmware(MergeAllFirmware(layers[..|layers| - 1]), layers[|layers| - 1])
  }

  /** Layer k adds the firmware, and no layer above removes it. */
  ghost predicate FirmwareKept(layers: seq<Layer>, k: nat, name: string) {
    && k < |layers| && name in layers[k].firmware
    && forall j :: k < j < |layers| ==> !RemovesFirmware(layers[j], name)
  }

  /** A firmware name is present if and only if some layer adds it and no later one takes it away. */
  lemma {:induction false} FirmwareLastWriterWins(layers: seq<Layer>, name: string)
    requires name != ""
    ensures name in MergeAllFirmware(layers) <==> exists k: nat :: FirmwareKept(layers, k, name)
  {
    if layers != [] {
      var below, top := layers[..|layers| - 1], layers[|layers| - 1];
      FirmwareLastWriterWins(below, name);
      forall k: nat
        ensures FirmwareKept(layers, k, name) <==>
                  if k < |below| then FirmwareKept(below, k, name) && !RemovesFirmware(top, name)
                  else k == |below| && name in top.firmware
      {
        assert forall j :: 0 <= j < |below| ==> below[j] == layers[j];
        assert layers[|below|] == top;
      }
      if name in top.firmware {
        assert FirmwareKept(layers, |below|, name);
      }
    }
  }

  /** The name below the firmware directory that a whiteout is for is changed before it is looked up. */
  predicate Respelled(path: string) {
    && HasPrefix(path, FIRMWARE + "/")
    && NormalizeFirmware(path[|FIRMWARE| + 1..]) != path[|FIRMWARE| + 1..]
  }

  ghost predicate RemovalAgrees(path: string, name: string) {
    HidesFirmware(path, name) <==> Hides(path, FIRMWARE + "/" + name)
  }

  /**
   Removing firmware agrees with removing the file of exactly that name from the image,
   if and only if the whiteout is not one of the two directories above the firmware
   directory, whose removal keeps all firmware, and is not for a name that normalizing
   changes, such as a compressed spelling, whose removal takes another name away.
   */
  lemma FirmwareWhiteoutIff(path: string)
    ensures (forall name: string :: name != "" ==> RemovalAgrees(path, name))
            <==> path != "usr" && path != "usr/lib" && !Respelled(path)
  {
    if path == "usr" || path == "usr/lib" {
      var name: string := "a";
      assert path + "/" <= FIRMWARE + "/" + name;
      assert !RemovalAgrees(path, name);
    } else if Respelled(path) {
      RespelledDisagrees(path[|FIRMWARE| + 1..]);
      assert path == FIRMWARE + "/" + path[|FIRMWARE| + 1..];
    } else {
      forall name: string | name != ""
        ensures RemovalAgrees(path, name)
      {
        FirmwareWhiteoutAgrees(path, name);
      }
    }
  }

  /** A name that normalizing changes is taken away in place of another one. */
  lemma RespelledDisagrees(rel: string)
    requires NormalizeFirmware(rel) != rel
    ensures exists name: string :: name != "" && !RemovalAgrees(FIRMWARE + "/" + rel, name)
  {
    var dir, n := FIRMWARE + "/", NormalizeFirmware(rel);
    NormalizeFirmwareShortens(rel);
    var name := if n != "" then n else if rel[0] != '/' then rel else if rel == "/" then "/x" else "/";
    assert (dir + rel)[|dir|..] == rel;
    assert (dir + name)[|dir|..] == name;
    assert dir + rel == dir + name ==> rel == name;
    assert (dir + "//")[|dir| + 1] == '/' && (dir + "/x")[|dir| + 1] == 'x';
    assert !RemovalAgrees(dir + rel, name);
  }

  lemma TrimSpaceShortens(s: string)
    ensures |TrimSpace(s)| <= |s|
  {
    TrimLeftShortens(s);
    TrimRightShortens(TrimLeft(s));
  }

  lemma WithoutCompressionShortens(s: string)
    ensures |WithoutCompression(s)| <= |s|
  {
  }

  lemma PrefixShortens(s: string)
    ensures |TrimPrefix(s, "./")| <= |s|
  {
  }

  lemma NormalizeFirmwareShortens(name: string)
    ensures |NormalizeFirmware(name)| <= |name|
  {
    var trimmed := TrimSpace(name);
    var plain := TrimPrefix(trimmed, "./");
    TrimSpaceShortens(name);
    PrefixShortens(trimmed);
    TrimLeftCharShortens(plain, '/');
    WithoutCompressionShortens(TrimLeftChar(plain, '/'));
  }

  lemma FirmwareWhiteoutAgrees(path: string, name: string)
    requires name != "" && path != "usr" && path != "usr/lib"
    requires !Respelled(path)
    ensures RemovalAgrees(path, name)
  {
    var dir := FIRMWARE + "/";
    var file := dir + name;
    if HasPrefix(path, dir) {
      var rel := path[|dir|..];
      assert path == dir + rel;
      assert file[|dir|..] == name;
      if Hides(rel, name) && name != rel {
        assert path + "/" == dir + (rel + "/");
      }
      if Hides(path, file) && file != path {
        assert (path + "/")[|dir|..] == rel + "/";
        assert file[..|path| + 1] == path + "/";
        assert name[..|rel| + 1] == file[..|path| + 1][|dir|..];
      }
    } else if Hides(path, file) {
      assert file != path;
      assert file[|path|] == '/' && path == file[..|path|];
      if |path| < |dir| {
        assert FIRMWARE[3] == '/' && FIRMWARE[7] == '/' && dir[|path|] == '/';
        assert path == dir[..|path|];
        assert |path| == 3 || |path| == 7 || |path| == 16;
      }
    }
  }

  // ---- the merge in place ------------------------------------------------------------------

  /** One of the first k whiteouts hides the file. */
  ghost predicate HiddenByFirst(whiteouts: seq<string>, k: nat, name: string)
    requires k <= |whiteouts|
  {
    exists i :: 0 <= i < k && Hides(whiteouts[i], name)
  }

  /** One of the first k whiteouts removes the firmware. */
  ghost predicate FirmwareHiddenByFirst(whiteouts: seq<string>, k: nat, name: string)
    requires k <= |whiteouts|
  {
    exists i :: 0 <= i < k && HidesFirmware(whiteouts[i], name)
  }

  class Overlay {
    var moduleFiles: map<string, string>
    var firmware: set<string>

    constructor ()
      ensures moduleFiles == map[] && firmware == {}
    {
      moduleFiles, firmware := map[], {};
    }

    method RemoveModules(path: string)
      modifies this`moduleFiles
      ensures moduleFiles == map name | name in old(moduleFiles) && !Hides(path, name) :: old(moduleFiles)[name]
    {
      var todo := moduleFiles.Keys;
      while todo != {}
        invariant todo <= moduleFiles.Keys
        invariant moduleFiles == map name | name in old(moduleFiles) && (name in todo || !Hides(path, name)) :: old(moduleFiles)[name]
        decreases todo
      {
        var name :| name in todo;
        if Hides(path, name) {
          moduleFiles := moduleFiles - {name};
        }
        todo := todo - {name};
      }
    }

    method RemoveFirmware(path: string)
      modifies this`firmware
      ensures firmware == set name | name in old(firmware) && !HidesFirmware(path, name)
    {
      if path == FIRMWARE {
        firmware := {};
      } else if HasPrefix(path, FIRMWARE + "/") {
        var relative := NormalizeFirmware(path[|FIRMWARE| + 1..]);
        var todo := firmware;
        while todo != {}
          invariant todo <= firmware
          invariant firmware == set name | name in old(firmware) && (name in todo || !Hides(relative, name))
          decreases todo
        {
          var name :| name in todo;
          if Hides(relative, name) {
            firmware := firmware - {name};
          }
          todo := todo - {name};
        }
      }
    }

    method ApplyWhiteouts(whiteouts: seq<string>)
      modifies this
      ensures moduleFiles == map name | name in old(moduleFiles) && !HiddenByFirst(whiteouts, |whiteouts|, name) :: old(moduleFiles)[name]
      ensures firmware == set name | name in old(firmware) && !FirmwareHiddenByFirst(whiteouts, |whiteouts|, name)
    {
      for k := 0 to |whiteouts|
        invariant moduleFiles == map name | name in old(moduleFiles) && !HiddenByFirst(whiteouts, k, name) :: old(moduleFiles)[name]
        invariant firmware == set name | name in old(firmware) && !FirmwareHiddenByFirst(whiteouts, k, name)
      {
        RemoveModules(whiteouts[k]);
        RemoveFirmware(whiteouts[k]);
      }
    }

    method ApplyLayer(layer: Layer)
      modifies this
      ensures moduleFiles == Merge(old(moduleFiles), layer)
      ensures firmware == MergeFirmware(old(firmware), layer)
    {
      ApplyWhiteouts(layer.whiteouts);
      assert forall n :: Removes(layer, n) <==> HiddenByFirst(layer.whiteouts, |layer.whiteouts|, n);
      assert forall n :: RemovesFirmware(layer, n) <==> FirmwareHiddenByFirst(layer.whiteouts, |layer.whiteouts|, n);
      moduleFiles := moduleFiles + layer.moduleFiles;
      firmware := firmware + (layer.firmware - {""});
    }

    /** Merging layer after layer, from an empty overlay. */
    method ApplyLayers(layers: seq<Layer>)
      requires moduleFiles == map[] && firmware == {}
      modifies this
      ensures moduleFiles == MergeAll(layers) && firmware == MergeAllFirmware(layers)
    {
      for k := 0 to |layers|
        invariant moduleFiles == MergeAll(layers[..k]) && firmware == MergeAllFirmware(layers[..k])
      {
        ApplyLayer(layers[k]);
        assert layers[..k + 1][..k] == layers[..k];
      }
      assert layers[..|layers|] == layers;
    }
  }
}
