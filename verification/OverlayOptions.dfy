/**
 The mount options of an overlay: which paths it is made of, and when they can be
 trusted at all.
 */
module OverlayOptions {
  import opened Text

  const LAYER_KEYS: set<string> := {"lowerdir", "datadir", "upperdir", "workdir"}

  /** A missing key of a lookup reads as "". */
  function Lookup(m: map<string, string>, key: string): string {
    if key in m then m[key] else ""
  }

  /** An absolute path in its shortest spelling, without blanks or backslashes. */
  predicate Absolute(s: string) {
    && HasPrefix(s, "/")
    && (s == "/" || forall part :: part in Split(s[1..], '/') ==> part != "" && part != "." && part != "..")
    && !ContainsAny(s, "\\\t\r\n ")
  }

  // ---- reading the options ------------------------------------------------------------

  /** One mount option of an overlay, added to the layers read so far. */
  function AddLayer(option: string, layers: map<string, string>): Option<map<string, string>> {
    var k := IndexOf(option, '=');
    var has, raw, v := k < |option|, option[..k], if k < |option| then option[k + 1..] else "";
    var key := TrimRightChar(raw, '+');
    if key !in LAYER_KEYS then Some(layers)
    else if !has || v == "" || Lookup(layers, key) != "" || ContainsAny(v, "\\ \t\r\n")
         || (raw != key && raw != key + "+") || (raw != key && key != "lowerdir" && key != "datadir") then None
    else Some(layers[key := v])
  }

  function ReadLayers(options: seq<string>, layers: map<string, string>): Option<map<string, string>> {
    if options == [] then Some(layers)
    else
      match AddLayer(options[0], layers)
      case None => None
      case Some(more) => ReadLayers(options[1..], more)
  }

  function CountPairs(s: string): nat {
    if |s| < 2 then 0 else if s[0] == s[1] == ':' then 1 + CountPairs(s[2..]) else CountPairs(s[1..])
  }

  /** The paths of one layer option; a lowerdir may join one data layer list with `::`. */
  function LayerPaths(key: string, v: string): Option<seq<string>> {
    if key == "lowerdir" && IndexOfPair(v, ':', ':') < |v| then PairedPaths(v, IndexOfPair(v, ':', ':'))
    else PlainPaths(key == "upperdir" || key == "workdir", v)
  }

  function PairedPaths(v: string, k: nat): Option<seq<string>>
    requires k + 2 <= |v|
  {
    if CountPairs(v) != 1 || v[..k] == "" || v[k + 2..] == "" then None
    else CheckedPaths(Split(v[..k] + ":" + v[k + 2..], ':'))
  }

  function PlainPaths(writable: bool, v: string): Option<seq<string>> {
    if writable && |Split(v, ':')| != 1 then None else CheckedPaths(Split(v, ':'))
  }

  predicate AllAbsolute(parts: seq<string>) {
    forall p :: p in parts ==> Absolute(p)
  }

  function CheckedPaths(parts: seq<string>): Option<seq<string>> {
    if AllAbsolute(parts) then Some(parts) else None
  }

  function PathsOf(layers: map<string, string>, key: string): Option<seq<string>> {
    if key !in layers then Some([]) else LayerPaths(key, layers[key])
  }

  /** Every path that an overlay root is made of; None for options it cannot trust. */
  function OverlayPaths(options: string): Option<seq<string>> {
    match ReadLayers(Split(options, ','), map[])
    case None => None
    case Some(layers) => PathsOfLayers(layers)
  }

  function PathsOfLayers(layers: map<string, string>): Option<seq<string>> {
    if Lookup(layers, "lowerdir") == "" || (Lookup(layers, "upperdir") == "") != (Lookup(layers, "workdir") == "") then None
    else
      var lower, data := PathsOf(layers, "lowerdir"), PathsOf(layers, "datadir");
      var upper, work := PathsOf(layers, "upperdir"), PathsOf(layers, "workdir");
      if lower.None? || data.None? || upper.None? || work.None? then None
      else
        var all := lower.value + data.value + upper.value + work.value;
        if |all| > 32 then None else Some(all)
  }

  // ---- what the options say --------------------------------------------------------------

  /** The option names this layer, well or badly. */
  predicate NamesLayer(option: string, key: string) {
    TrimRightChar(option[..IndexOf(option, '=')], '+') == key
  }

  /** The option gives the layer this value; lists of lower and data layers may be appended to. */
  predicate Sets(option: string, key: string, v: string) {
    option == key + "=" + v || (key in {"lowerdir", "datadir"} && option == key + "+=" + v)
  }

  predicate CleanValue(v: string) {
    v != "" && !ContainsAny(v, "\\ \t\r\n")
  }

  ghost predicate SetsCleanly(option: string, key: string) {
    exists v :: Sets(option, key, v) && CleanValue(v)
  }

  /** Every option that names a layer gives it a clean value, and no two name the same. */
  ghost predicate Unambiguous(options: seq<string>) {
    && (forall o, key :: o in options && key in LAYER_KEYS && NamesLayer(o, key) ==> SetsCleanly(o, key))
    && (forall i, j, key :: 0 <= i < j < |options| && key in LAYER_KEYS ==>
          !NamesLayer(options[i], key) || !NamesLayer(options[j], key))
  }

  ghost predicate Given(options: seq<string>, key: string, v: string) {
    exists o :: o in options && Sets(o, key, v)
  }

  ghost predicate Has(options: seq<string>, key: string) {
    exists v :: Given(options, key, v)
  }

  /** One path for a writable layer, else a list; a lowerdir list may be split once, in the middle, by an empty part. */
  predicate GoodParts(key: string, parts: seq<string>) {
    && (key in {"upperdir", "workdir"} ==> |parts| == 1)
    && (forall i :: 0 <= i < |parts| && !Absolute(parts[i]) ==> parts[i] == "" && key == "lowerdir" && 0 < i < |parts| - 1)
    && (forall i, j :: 0 <= i < j < |parts| ==> parts[i] != "" || parts[j] != "")
  }

  function NonEmpty(parts: seq<string>): seq<string> {
    if parts == [] then [] else (if parts[0] == "" then [] else [parts[0]]) + NonEmpty(parts[1..])
  }

  /** How many paths the options name in all. */
  function PathCount(options: seq<string>): nat {
    if options == [] then 0 else OptionCount(options[0]) + PathCount(options[1..])
  }

  function OptionCount(option: string): nat {
    var k := IndexOf(option, '=');
    if k < |option| && TrimRightChar(option[..k], '+') in LAYER_KEYS then |NonEmpty(Split(option[k + 1..], ':'))| else 0
  }

  /** The options name a lower layer, both or none of the writable ones, good paths, and not too many. */
  ghost predicate Readable(options: seq<string>) {
    && Unambiguous(options) && Has(options, "lowerdir") && (Has(options, "upperdir") <==> Has(options, "workdir"))
    && (forall key, v :: key in LAYER_KEYS && Given(options, key, v) ==> GoodParts(key, Split(v, ':')))
    && PathCount(options) <= 32
  }

  /** Some layer option lists the path. */
  ghost predicate Listed(options: seq<string>, p: string) {
    exists key, v :: key in LAYER_KEYS && Given(options, key, v) && p != "" && p in Split(v, ':')
  }

  // ---- one option -------------------------------------------------------------------------

  lemma {:induction false} IndexOfIs(s: string, c: char, k: nat)
    requires k < |s| && s[k] == c && forall j :: 0 <= j < k ==> s[j] != c
    ensures IndexOf(s, c) == k
  {
    if k > 0 {
      IndexOfIs(s[1..], c, k - 1);
    }
  }

  lemma KeyLetters(key: string)
    requires key in LAYER_KEYS
    ensures key != "" && forall i :: 0 <= i < |key| ==> 'a' <= key[i] <= 'z'
  {
  }

  lemma KeyShape(key: string)
    requires key in LAYER_KEYS
    ensures '=' !in key && '=' !in key + "+" && TrimRightChar(key, '+') == key && TrimRightChar(key + "+", '+') == key
  {
    KeyLetters(key);
    PlusIsCut(key);
  }

  lemma PlusIsCut(key: string)
    requires key != "" && 'a' <= key[|key| - 1] <= 'z'
    ensures TrimRightChar(key, '+') == key && TrimRightChar(key + "+", '+') == key
  {
    assert (key + "+")[..|key|] == key;
  }

  lemma Rejoined(s: string, k: nat)
    requires k < |s|
    ensures s == s[..k] + [s[k]] + s[k + 1..]
  {
  }

  lemma Joined(name: string, v: string)
    ensures var s := name + "=" + v; s[|name|] == '=' && s[..|name|] == name && s[|name| + 1..] == v
  {
  }

  /** An option that consists of a name and a value is cut between them. */
  lemma CutAtEquals(option: string, name: string, v: string)
    requires '=' !in name
    ensures var k := IndexOf(option, '=');
            option == name + "=" + v <==> k < |option| && option[k + 1..] == v && option[..k] == name
  {
    var k := IndexOf(option, '=');
    if option == name + "=" + v {
      Joined(name, v);
      assert forall j :: 0 <= j < |name| ==> option[j] == name[j];
      IndexOfIs(option, '=', |name|);
    } else if k < |option| {
      Rejoined(option, k);
    }
  }

  /** The option as it is cut at its first `=`. */
  lemma SetsIff(option: string, key: string, v: string)
    requires key in LAYER_KEYS
    ensures var k := IndexOf(option, '=');
            Sets(option, key, v) <==>
              && k < |option| && option[k + 1..] == v
              && (option[..k] == key || (key in {"lowerdir", "datadir"} && option[..k] == key + "+"))
    ensures Sets(option, key, v) ==> NamesLayer(option, key)
  {
    KeyShape(key);
    SetsGlue(option, key, v, key in {"lowerdir", "datadir"});
  }

  lemma SetsGlue(option: string, key: string, v: string, appendable: bool)
    requires '=' !in key && '=' !in key + "+" && TrimRightChar(key, '+') == key && TrimRightChar(key + "+", '+') == key
    requires appendable == (key in {"lowerdir", "datadir"})
    ensures var k := IndexOf(option, '=');
            Sets(option, key, v) <==>
              && k < |option| && option[k + 1..] == v
              && (option[..k] == key || (appendable && option[..k] == key + "+"))
    ensures Sets(option, key, v) ==> NamesLayer(option, key)
  {
    CutAtEquals(option, key, v);
    CutAtEquals(option, key + "+", v);
    PlusEquals(key, v);
  }

  lemma PlusEquals(key: string, v: string)
    ensures key + "+" + "=" + v == key + "+=" + v
  {
    assert "+" + "=" == "+=";
    assert key + "+" + "=" + v == key + ("+" + "=") + v;
  }

  /** An option is taken over exactly when it names no layer, or sets a new one cleanly. */
  lemma AddLayerIff(option: string, layers: map<string, string>, key: string)
    requires NamesLayer(option, key) && key in LAYER_KEYS
    ensures AddLayer(option, layers).Some? <==> SetsCleanly(option, key) && Lookup(layers, key) == ""
    ensures forall v :: AddLayer(option, layers).Some? && Sets(option, key, v) ==> AddLayer(option, layers).value == layers[key := v]
  {
    var k := IndexOf(option, '=');
    forall v
      ensures Sets(option, key, v) <==>
                && k < |option| && option[k + 1..] == v
                && (option[..k] == key || (key in {"lowerdir", "datadir"} && option[..k] == key + "+"))
    {
      SetsIff(option, key, v);
    }
    if k < |option| {
      assert Sets(option, key, option[k + 1..]) <==>
             option[..k] == key || (key in {"lowerdir", "datadir"} && option[..k] == key + "+");
    }
  }

  // ---- all options --------------------------------------------------------------------------

  ghost predicate NoneNames(options: seq<string>, key: string) {
    forall o :: o in options ==> !NamesLayer(o, key)
  }

  lemma UnambiguousRest(options: seq<string>)
    requires options != [] && Unambiguous(options)
    ensures Unambiguous(options[1..])
    ensures forall key :: key in LAYER_KEYS && NamesLayer(options[0], key) ==>
              SetsCleanly(options[0], key) && NoneNames(options[1..], key)
  {
    var rest := options[1..];
    assert forall i :: 0 <= i < |rest| ==> options[i + 1] == rest[i];
    forall key, o | key in LAYER_KEYS && NamesLayer(options[0], key) && o in rest
      ensures !NamesLayer(o, key)
    {
      var j :| 0 <= j < |rest| && rest[j] == o;
      assert options[j + 1] == o;
    }
  }

  lemma UnambiguousCons(options: seq<string>)
    requires options != [] && Unambiguous(options[1..])
    requires forall key :: key in LAYER_KEYS && NamesLayer(options[0], key) ==>
               SetsCleanly(options[0], key) && NoneNames(options[1..], key)
    ensures Unambiguous(options)
  {
    var rest := options[1..];
    assert forall i :: 0 < i < |options| ==> options[i] == rest[i - 1] && options[i] in rest;
    forall o, key | o in options && key in LAYER_KEYS && NamesLayer(o, key)
      ensures SetsCleanly(o, key)
    {
      assert o == options[0] || o in rest;
    }
  }

  lemma UnambiguousStep(options: seq<string>)
    requires options != []
    ensures Unambiguous(options) <==>
              && Unambiguous(options[1..])
              && forall key :: key in LAYER_KEYS && NamesLayer(options[0], key) ==>
                   SetsCleanly(options[0], key) && NoneNames(options[1..], key)
  {
    if Unambiguous(options) {
      UnambiguousRest(options);
    } else if Unambiguous(options[1..])
              && forall key :: key in LAYER_KEYS && NamesLayer(options[0], key) ==>
                   SetsCleanly(options[0], key) && NoneNames(options[1..], key) {
      UnambiguousCons(options);
    }
  }

  lemma GivenStep(options: seq<string>, key: string, v: string)
    requires options != []
    ensures Given(options, key, v) <==> Sets(options[0], key, v) || Given(options[1..], key, v)
  {
    assert forall o :: o in options <==> o == options[0] || o in options[1..];
  }

  /** The layers read so far have known names and values. */
  predicate LayersOk(layers: map<string, string>) {
    forall key :: key in layers ==> key in LAYER_KEYS && layers[key] != ""
  }

  predicate ReadAs(layers: map<string, string>, key: string, v: string) {
    key in layers && layers[key] == v
  }

  ghost predicate NoneNamesThese(options: seq<string>, layers: map<string, string>) {
    forall key :: key in layers ==> NoneNames(options, key)
  }

  /** An option that names no layer changes nothing. */
  lemma OtherOption(option: string, layers: map<string, string>)
    requires forall key :: key in LAYER_KEYS ==> !NamesLayer(option, key)
    ensures AddLayer(option, layers) == Some(layers)
    ensures forall key, v :: key in LAYER_KEYS ==> !Sets(option, key, v)
  {
    var key := TrimRightChar(option[..IndexOf(option, '=')], '+');
    assert NamesLayer(option, key);
    forall key, v | key in LAYER_KEYS
      ensures !Sets(option, key, v)
    {
      SetsIff(option, key, v);
    }
  }

  /** A layer option that can be taken over adds its value, and nothing else. */
  lemma LayerOption(option: string, layers: map<string, string>, key: string)
    requires NamesLayer(option, key) && key in LAYER_KEYS && LayersOk(layers) && AddLayer(option, layers).Some?
    ensures var more := AddLayer(option, layers).value;
            && LayersOk(more) && key !in layers && more.Keys == layers.Keys + {key}
            && forall k, v :: k in LAYER_KEYS ==> (ReadAs(more, k, v) <==> ReadAs(layers, k, v) || Sets(option, k, v))
  {
    AddLayerIff(option, layers, key);
    var given :| Sets(option, key, given) && CleanValue(given);
    forall k, v | k in LAYER_KEYS
      ensures Sets(option, k, v) <==> k == key && v == given
    {
      SetsIff(option, k, v);
      SetsIff(option, key, given);
    }
  }

  /** The options are read exactly when they are unambiguous, and then every layer has the value it is given. */
  lemma {:induction false} ReadLayersIff(options: seq<string>, layers: map<string, string>)
    requires LayersOk(layers)
    ensures ReadLayers(options, layers).Some? <==> Unambiguous(options) && NoneNamesThese(options, layers)
    ensures ReadLayers(options, layers).Some? ==>
              && LayersOk(ReadLayers(options, layers).value)
              && forall k, v :: k in LAYER_KEYS ==>
                   (ReadAs(ReadLayers(options, layers).value, k, v) <==> ReadAs(layers, k, v) || Given(options, k, v))
    decreases |options|, 1
  {
    if options != [] {
      var first, rest := options[0], options[1..];
      UnambiguousStep(options);
      forall k, v
        ensures Given(options, k, v) <==> Sets(first, k, v) || Given(rest, k, v)
      {
        GivenStep(options, k, v);
      }
      assert forall o :: o in options <==> o == first || o in rest;
      if key :| key in LAYER_KEYS && NamesLayer(first, key) {
        ReadLayerFirst(options, layers, key);
      } else {
        OtherOption(first, layers);
        ReadLayersIff(rest, layers);
        assert NoneNamesThese(options, layers) <==> NoneNamesThese(rest, layers);
      }
    }
  }

  lemma {:induction false} ReadLayerFirst(options: seq<string>, layers: map<string, string>, key: string)
    requires LayersOk(layers) && options != [] && key in LAYER_KEYS && NamesLayer(options[0], key)
    ensures ReadLayers(options, layers).Some? <==>
              && SetsCleanly(options[0], key) && NoneNames(options[1..], key)
              && Unambiguous(options[1..]) && NoneNamesThese(options, layers)
    ensures ReadLayers(options, layers).Some? ==>
              && LayersOk(ReadLayers(options, layers).value)
              && forall k, v :: k in LAYER_KEYS ==>
                   (ReadAs(ReadLayers(options, layers).value, k, v) <==>
                    ReadAs(layers, k, v) || Sets(options[0], k, v) || Given(options[1..], k, v))
    decreases |options|, 0
  {
    var first, rest := options[0], options[1..];
    AddLayerIff(first, layers, key);
    assert NoneNamesThese(options, layers) ==> key !in layers && NoneNamesThese(rest, layers);
    if AddLayer(first, layers).Some? {
      LayerOption(first, layers, key);
      ReadLayersIff(rest, AddLayer(first, layers).value);
      assert NoneNamesThese(rest, AddLayer(first, layers).value) <==> NoneNamesThese(rest, layers) && NoneNames(rest, key);
      if NoneNamesThese(rest, layers) {
        forall k | k in layers
          ensures NoneNames(options, k)
        {
          assert NoneNames(rest, k) && k != key;
        }
      }
    }
  }

  // ---- the paths of one layer -------------------------------------------------------------------

  lemma {:induction false} SplitJoined(a: string, b: string, sep: char)
    ensures Split(a + [sep] + b, sep) == Split(a, sep) + Split(b, sep)
  {
    var all := a + [sep] + b;
    if a == "" {
      assert all[1..] == b;
    } else {
      assert all[1..] == a[1..] + [sep] + b;
      SplitJoined(a[1..], b, sep);
    }
  }

  lemma SplitPair(left: string, right: string)
    ensures Split(left + "::" + right, ':') == Split(left, ':') + [""] + Split(right, ':')
    ensures Split(left + ":" + right, ':') == Split(left, ':') + Split(right, ':')
  {
    SplitColon(right);
    SplitJoined(left, ":" + right, ':');
    SplitJoined(left, right, ':');
    PairIsTwo(left, right);
    PartsRejoined(Split(left, ':'), Split(right, ':'));
  }

  lemma SplitColon(s: string)
    ensures Split(":" + s, ':') == [""] + Split(s, ':')
  {
    assert (":" + s)[1..] == s;
  }

  lemma PairIsTwo(left: string, right: string)
    ensures left + "::" + right == left + ":" + (":" + right)
  {
  }

  lemma PartsRejoined(a: seq<string>, b: seq<string>)
    ensures a + ([""] + b) == a + [""] + b
  {
  }

  lemma RejoinedPair(v: string, k: nat)
    requires k + 1 < |v| && v[k] == v[k + 1] == ':'
    ensures v == v[..k] + "::" + v[k + 2..]
  {
  }

  /** The first `::` cuts the parts in two, with an empty one between them. */
  lemma SplitAtPair(v: string, k: nat, left: string, right: string)
    requires k + 1 < |v| && v[k] == v[k + 1] == ':' && left == v[..k] && right == v[k + 2..]
    ensures Split(v, ':') == Split(left, ':') + [""] + Split(right, ':')
    ensures Split(left + ":" + right, ':') == Split(left, ':') + Split(right, ':')
  {
    RejoinedPair(v, k);
    SplitPair(left, right);
  }

  lemma {:induction false} CountAtPair(v: string)
    ensures var k := IndexOfPair(v, ':', ':');
            CountPairs(v) == if k < |v| then 1 + CountPairs(v[k + 2..]) else 0
  {
    if |v| >= 2 && !(v[0] == v[1] == ':') {
      CountAtPair(v[1..]);
      var k := IndexOfPair(v, ':', ':');
      if k < |v| {
        assert v[k + 2..] == v[1..][k + 1..];
      }
    }
  }

  /** Without `::` only the first and the last part can be empty. */
  lemma {:induction false} MiddleParts(v: string, i: nat)
    requires IndexOfPair(v, ':', ':') == |v| && 0 < i < |Split(v, ':')| - 1
    ensures Split(v, ':')[i] != ""
  {
    var rest := Split(v[1..], ':');
    if |v| >= 2 {
      assert IndexOfPair(v[1..], ':', ':') == |v[1..]|;
      if v[0] == ':' {
        assert Split(v, ':') == [""] + rest;
        if i == 1 {
          assert rest[0] != "";
        } else {
          MiddleParts(v[1..], i - 1);
        }
      } else {
        assert Split(v, ':')[i] == rest[i];
        MiddleParts(v[1..], i);
      }
    }
  }

  lemma {:induction false} NonEmptyAll(parts: seq<string>)
    requires AllAbsolute(parts)
    ensures NonEmpty(parts) == parts
  {
    if parts != [] {
      assert Absolute(parts[0]);
      assert forall p :: p in parts[1..] ==> p in parts;
      NonEmptyAll(parts[1..]);
    }
  }

  lemma {:induction false} NonEmptyConcat(a: seq<string>, b: seq<string>)
    ensures NonEmpty(a + b) == NonEmpty(a) + NonEmpty(b)
  {
    if a == [] {
      assert a + b == b;
    } else {
      assert (a + b)[1..] == a[1..] + b;
      NonEmptyConcat(a[1..], b);
    }
  }

  lemma AllAbsoluteIff(parts: seq<string>)
    ensures AllAbsolute(parts) <==> forall i :: 0 <= i < |parts| ==> Absolute(parts[i])
  {
  }

  lemma OneEmptyOnly(key: string, parts: seq<string>, k: nat)
    requires GoodParts(key, parts) && k < |parts| && parts[k] == ""
    ensures forall i :: 0 <= i < |parts| && i != k ==> Absolute(parts[i])
  {
    forall i | 0 <= i < |parts| && i != k
      ensures Absolute(parts[i])
    {
      assert parts[i] != "";
    }
  }

  lemma PartedAreAbsolute(a: seq<string>, b: seq<string>)
    requires GoodParts("lowerdir", a + [""] + b)
    ensures AllAbsolute(a) && AllAbsolute(b)
  {
    var all := a + [""] + b;
    OneEmptyOnly("lowerdir", all, |a|);
    forall i | 0 <= i < |a|
      ensures Absolute(a[i])
    {
      assert all[i] == a[i];
    }
    forall i | 0 <= i < |b|
      ensures Absolute(b[i])
    {
      assert all[|a| + 1 + i] == b[i];
    }
    AllAbsoluteIff(a);
    AllAbsoluteIff(b);
  }

  lemma PartedNonEmpty(a: seq<string>, b: seq<string>)
    requires AllAbsolute(a) && AllAbsolute(b)
    ensures NonEmpty(a + [""] + b) == a + b
  {
    NonEmptyConcat(a + [""], b);
    NonEmptyConcat(a, [""]);
    NonEmptyAll(a);
    NonEmptyAll(b);
    assert NonEmpty([""]) == [];
  }

  /** Parts around one empty part are good for a lowerdir exactly when all of them are absolute. */
  lemma PartedIff(a: seq<string>, b: seq<string>)
    requires a != [] && b != []
    ensures GoodParts("lowerdir", a + [""] + b) == (AllAbsolute(a) && AllAbsolute(b))
    ensures AllAbsolute(a) && AllAbsolute(b) ==> NonEmpty(a + [""] + b) == a + b
  {
    if AllAbsolute(a) && AllAbsolute(b) {
      PartedIsGood(a, b);
      PartedNonEmpty(a, b);
    } else if GoodParts("lowerdir", a + [""] + b) {
      PartedAreAbsolute(a, b);
    }
  }

  lemma PartedIsGood(a: seq<string>, b: seq<string>)
    requires a != [] && b != [] && AllAbsolute(a) && AllAbsolute(b)
    ensures GoodParts("lowerdir", a + [""] + b)
  {
    var all := a + [""] + b;
    forall i | 0 <= i < |all| && i != |a|
      ensures Absolute(all[i]) && all[i] != ""
    {
      assert if i < |a| then all[i] in a else all[i] in b;
    }
  }

  lemma EmptyBetween(a: seq<string>, b: seq<string>)
    ensures !AllAbsolute(a + [""] + b)
  {
    assert (a + [""] + b)[|a|] == "";
    assert "" in a + [""] + b && !Absolute("");
  }

  /** Where no other part is empty the two halves are not, and there is no second `::`. */
  lemma OnePair(v: string, k: nat)
    requires k == IndexOfPair(v, ':', ':') < |v|
    requires AllAbsolute(Split(v[..k], ':')) && AllAbsolute(Split(v[k + 2..], ':'))
    ensures CountPairs(v) == 1 && v[..k] != "" && v[k + 2..] != ""
  {
    var left, right := v[..k], v[k + 2..];
    var a, b := Split(left, ':'), Split(right, ':');
    assert a[0] in a && b[0] in b;
    assert left != "" && right != "";
    CountAtPair(v);
    CountAtPair(right);
    var j := IndexOfPair(right, ':', ':');
    if j < |right| {
      SplitAtPair(right, j, right[..j], right[j + 2..]);
      EmptyBetween(Split(right[..j], ':'), Split(right[j + 2..], ':'));
      assert false;
    }
  }

  lemma AllAbsoluteConcat(a: seq<string>, b: seq<string>)
    ensures AllAbsolute(a + b) <==> AllAbsolute(a) && AllAbsolute(b)
  {
    assert forall p :: p in a + b <==> p in a || p in b;
  }

  lemma PairedLayer(v: string, k: nat, left: string, right: string)
    requires k == IndexOfPair(v, ':', ':') < |v| && left == v[..k] && right == v[k + 2..]
    ensures PairedPaths(v, k).Some? <==> AllAbsolute(Split(left, ':')) && AllAbsolute(Split(right, ':'))
    ensures PairedPaths(v, k).Some? ==> PairedPaths(v, k).value == Split(left, ':') + Split(right, ':')
  {
    SplitAtPair(v, k, left, right);
    AllAbsoluteConcat(Split(left, ':'), Split(right, ':'));
    if AllAbsolute(Split(left, ':')) && AllAbsolute(Split(right, ':')) {
      OnePair(v, k);
    }
  }

  lemma GoodWhenAbsolute(key: string, parts: seq<string>)
    requires AllAbsolute(parts) && (key in {"upperdir", "workdir"} ==> |parts| == 1)
    ensures GoodParts(key, parts) && NonEmpty(parts) == parts
  {
    NonEmptyAll(parts);
    forall i | 0 <= i < |parts|
      ensures Absolute(parts[i]) && parts[i] != ""
    {
      assert parts[i] in parts && !Absolute("");
    }
  }

  lemma AbsoluteWhenGood(key: string, parts: seq<string>)
    requires GoodParts(key, parts)
    requires key == "lowerdir" ==> forall i :: 0 < i < |parts| - 1 ==> parts[i] != ""
    ensures AllAbsolute(parts)
  {
    AllAbsoluteIff(parts);
  }

  lemma GoodIff(key: string, parts: seq<string>)
    requires key == "lowerdir" ==> forall i :: 0 < i < |parts| - 1 ==> parts[i] != ""
    ensures GoodParts(key, parts) <==> AllAbsolute(parts) && (key in {"upperdir", "workdir"} ==> |parts| == 1)
    ensures AllAbsolute(parts) ==> NonEmpty(parts) == parts
  {
    if AllAbsolute(parts) {
      NonEmptyAll(parts);
    }
    if AllAbsolute(parts) && (key in {"upperdir", "workdir"} ==> |parts| == 1) {
      GoodWhenAbsolute(key, parts);
    } else if GoodParts(key, parts) {
      AbsoluteWhenGood(key, parts);
    }
  }

  lemma PlainLayer(key: string, v: string)
    requires key != "lowerdir" || IndexOfPair(v, ':', ':') == |v|
    ensures PlainPaths(key in {"upperdir", "workdir"}, v).Some? <==> GoodParts(key, Split(v, ':'))
    ensures var r := PlainPaths(key in {"upperdir", "workdir"}, v);
            r.Some? ==> r.value == NonEmpty(Split(v, ':'))
  {
    forall i | 0 < i < |Split(v, ':')| - 1 && key == "lowerdir"
      ensures Split(v, ':')[i] != ""
    {
      MiddleParts(v, i);
    }
    GoodIff(key, Split(v, ':'));
  }

  /** A layer is accepted exactly when its parts are good, and its paths are the parts that are not empty. */
  lemma LayerPathsIff(key: string, v: string)
    ensures LayerPaths(key, v).Some? <==> GoodParts(key, Split(v, ':'))
    ensures LayerPaths(key, v).Some? ==> LayerPaths(key, v).value == NonEmpty(Split(v, ':'))
  {
    var k := IndexOfPair(v, ':', ':');
    if key == "lowerdir" && k < |v| {
      PairedLayer(v, k, v[..k], v[k + 2..]);
      SplitAtPair(v, k, v[..k], v[k + 2..]);
      PartedIff(Split(v[..k], ':'), Split(v[k + 2..], ':'));
    } else {
      PlainLayer(key, v);
    }
  }


  // ---- the whole overlay -------------------------------------------------------------------------

  function CountAt(layers: map<string, string>, key: string): nat {
    if key in layers then |NonEmpty(Split(layers[key], ':'))| else 0
  }

  function Total(layers: map<string, string>): nat {
    CountAt(layers, "lowerdir") + CountAt(layers, "datadir") + CountAt(layers, "upperdir") + CountAt(layers, "workdir")
  }

  lemma TotalGrows(layers: map<string, string>, key: string, v: string)
    requires key in LAYER_KEYS && key !in layers
    ensures Total(layers[key := v]) == Total(layers) + |NonEmpty(Split(v, ':'))|
  {
    var more := layers[key := v];
    assert forall k :: k != key ==> CountAt(more, k) == CountAt(layers, k);
    assert CountAt(more, key) == |NonEmpty(Split(v, ':'))| && CountAt(layers, key) == 0;
    FourDistinct(key);
  }

  lemma FourDistinct(key: string)
    ensures "lowerdir" != "datadir" && "lowerdir" != "upperdir" && "lowerdir" != "workdir"
    ensures "datadir" != "upperdir" && "datadir" != "workdir" && "upperdir" != "workdir"
  {
    assert "lowerdir"[0] == 'l' && "datadir"[0] == 'd' && "upperdir"[0] == 'u' && "workdir"[0] == 'w';
  }

  lemma OptionAdds(option: string, layers: map<string, string>)
    requires LayersOk(layers) && AddLayer(option, layers).Some?
    ensures LayersOk(AddLayer(option, layers).value)
    ensures Total(AddLayer(option, layers).value) == Total(layers) + OptionCount(option)
  {
    var k := IndexOf(option, '=');
    var key := TrimRightChar(option[..k], '+');
    if key in LAYER_KEYS {
      LayerOption(option, layers, key);
      TotalGrows(layers, key, option[k + 1..]);
    }
  }

  lemma {:induction false} CountsAdd(options: seq<string>, layers: map<string, string>)
    requires LayersOk(layers) && ReadLayers(options, layers).Some?
    ensures Total(ReadLayers(options, layers).value) == Total(layers) + PathCount(options)
    decreases |options|
  {
    if options != [] {
      OptionAdds(options[0], layers);
      CountsAdd(options[1..], AddLayer(options[0], layers).value);
    }
  }

  /** What has been read is what is given. */
  lemma ReadIsGiven(options: seq<string>, layers: map<string, string>, key: string)
    requires ReadLayers(options, map[]) == Some(layers) && key in LAYER_KEYS
    ensures key in layers <==> Has(options, key)
    ensures key in layers ==> layers[key] != "" && Given(options, key, layers[key])
    ensures forall v :: Given(options, key, v) ==> key in layers && layers[key] == v
  {
    ReadLayersIff(options, map[]);
    assert LayersOk(layers);
    assert key in layers ==> ReadAs(layers, key, layers[key]);
    forall v | Given(options, key, v)
      ensures ReadAs(layers, key, v)
    {
    }
  }

  ghost predicate GoodLayer(options: seq<string>, key: string) {
    forall v :: Given(options, key, v) ==> GoodParts(key, Split(v, ':'))
  }

  ghost predicate ListedIn(options: seq<string>, key: string, p: string) {
    exists v :: Given(options, key, v) && p != "" && p in Split(v, ':')
  }

  lemma {:induction false} NonEmptyElements(parts: seq<string>)
    ensures forall p :: p in NonEmpty(parts) <==> p != "" && p in parts
  {
    if parts != [] {
      NonEmptyElements(parts[1..]);
      assert forall p :: p in parts <==> p == parts[0] || p in parts[1..];
    }
  }

  lemma PathsOfIff(options: seq<string>, layers: map<string, string>, key: string)
    requires ReadLayers(options, map[]) == Some(layers) && key in LAYER_KEYS
    ensures PathsOf(layers, key).Some? <==> GoodLayer(options, key)
    ensures PathsOf(layers, key).Some? ==>
              && |PathsOf(layers, key).value| == CountAt(layers, key)
              && forall p :: p in PathsOf(layers, key).value <==> ListedIn(options, key, p)
  {
    ReadIsGiven(options, layers, key);
    if key in layers {
      LayerPathsIff(key, layers[key]);
      NonEmptyElements(Split(layers[key], ':'));
    }
  }

  ghost predicate GoodLayers(options: seq<string>) {
    GoodLayer(options, "lowerdir") && GoodLayer(options, "datadir") && GoodLayer(options, "upperdir") && GoodLayer(options, "workdir")
  }

  lemma ByLayer(options: seq<string>, p: string)
    ensures GoodLayers(options) <==> forall key, v :: key in LAYER_KEYS && Given(options, key, v) ==> GoodParts(key, Split(v, ':'))
    ensures Listed(options, p) <==>
              || ListedIn(options, "lowerdir", p) || ListedIn(options, "datadir", p)
              || ListedIn(options, "upperdir", p) || ListedIn(options, "workdir", p)
  {
    assert forall key :: key in LAYER_KEYS <==> key == "lowerdir" || key == "datadir" || key == "upperdir" || key == "workdir";
    assert Listed(options, p) <==> exists key :: key in LAYER_KEYS && ListedIn(options, key, p);
  }

  /** All the paths of the layers read, when each layer is good. */
  lemma AllPaths(options: seq<string>, layers: map<string, string>)
    requires ReadLayers(options, map[]) == Some(layers)
    ensures GoodLayers(options) <==> PathsOf(layers, "lowerdir").Some? && PathsOf(layers, "datadir").Some?
                                     && PathsOf(layers, "upperdir").Some? && PathsOf(layers, "workdir").Some?
    ensures GoodLayers(options) ==>
              var all := PathsOf(layers, "lowerdir").value + PathsOf(layers, "datadir").value
                         + PathsOf(layers, "upperdir").value + PathsOf(layers, "workdir").value;
              |all| == PathCount(options) && forall p :: p in all <==> Listed(options, p)
  {
    PathsOfIff(options, layers, "lowerdir");
    PathsOfIff(options, layers, "datadir");
    PathsOfIff(options, layers, "upperdir");
    PathsOfIff(options, layers, "workdir");
    CountsAdd(options, map[]);
    forall p
      ensures Listed(options, p) <==>
                || ListedIn(options, "lowerdir", p) || ListedIn(options, "datadir", p)
                || ListedIn(options, "upperdir", p) || ListedIn(options, "workdir", p)
    {
      ByLayer(options, p);
    }
  }

  /**
   The options of an overlay are trusted exactly when they can be read without doubt, and
   then its paths are exactly the ones that some layer option lists.
   */
  lemma OverlayPathsIff(text: string)
    ensures OverlayPaths(text).Some? <==> Readable(Split(text, ','))
    ensures OverlayPaths(text).Some? ==> forall p :: p in OverlayPaths(text).value <==> Listed(Split(text, ','), p)
  {
    var options := Split(text, ',');
    ReadLayersIff(options, map[]);
    ByLayer(options, "");
    if ReadLayers(options, map[]).Some? {
      LayersIff(options, ReadLayers(options, map[]).value);
    }
  }

  lemma LayersIff(options: seq<string>, layers: map<string, string>)
    requires ReadLayers(options, map[]) == Some(layers)
    ensures PathsOfLayers(layers).Some? <==>
              && Has(options, "lowerdir") && (Has(options, "upperdir") <==> Has(options, "workdir"))
              && GoodLayers(options) && PathCount(options) <= 32
    ensures PathsOfLayers(layers).Some? ==> forall p :: p in PathsOfLayers(layers).value <==> Listed(options, p)
  {
    ReadIsGiven(options, layers, "lowerdir");
    ReadIsGiven(options, layers, "upperdir");
    ReadIsGiven(options, layers, "workdir");
    AllPaths(options, layers);
  }

  /** A good layer lists absolute paths alone. */
  lemma ListedIsAbsolute(text: string, p: string)
    requires OverlayPaths(text).Some? && Listed(Split(text, ','), p)
    ensures Absolute(p)
  {
    OverlayPathsIff(text);
    var options := Split(text, ',');
    var key, v :| key in LAYER_KEYS && Given(options, key, v) && p != "" && p in Split(v, ':');
    assert GoodParts(key, Split(v, ':'));
    var i :| 0 <= i < |Split(v, ':')| && Split(v, ':')[i] == p;
  }

  lemma {:induction false} OnePart(v: string)
    requires |Split(v, ':')| == 1
    ensures Split(v, ':') == [v]
  {
    if v != "" {
      OnePart(v[1..]);
      assert [v[0]] + v[1..] == v;
    }
  }

  /** The one path that a readable overlay is given for a writable layer is listed. */
  lemma WritableIsListed(options: seq<string>, key: string, v: string)
    requires Readable(options) && key in {"upperdir", "workdir"} && key + "=" + v in options
    ensures Listed(options, v)
  {
    assert Sets(key + "=" + v, key, v);
    assert Given(options, key, v);
    OneGoodPart(key, Split(v, ':'));
    OnePart(v);
  }

  lemma OneGoodPart(key: string, parts: seq<string>)
    requires GoodParts(key, parts) && key in {"upperdir", "workdir"}
    ensures |parts| == 1 && Absolute(parts[0]) && parts[0] != ""
  {
    assert key != "lowerdir";
  }

  /** Each part of a lower or data layer is listed, appended or not. */
  lemma LowerIsListed(options: seq<string>, key: string, plus: string, v: string, p: string)
    requires key in {"lowerdir", "datadir"} && plus in {"", "+"} && key + plus + "=" + v in options
    requires p in Split(v, ':') && p != ""
    ensures Listed(options, p)
  {
    PlusEquals(key, v);
    assert key + "" + "=" + v == key + "=" + v;
    assert Sets(key + plus + "=" + v, key, v);
    assert Given(options, key, v);
  }

  /** An overlay that is accepted has a lower layer, and its layers hold at most 32 paths, all absolute. */
  lemma OverlayHasLayers(text: string)
    requires OverlayPaths(text).Some?
    ensures 0 < |OverlayPaths(text).value| <= 32 && forall p :: p in OverlayPaths(text).value ==> Absolute(p)
  {
    OverlayPathsIff(text);
    var options := Split(text, ',');
    var v :| Given(options, "lowerdir", v);
    LowerPartExists(options, v);
    forall p | p in OverlayPaths(text).value
      ensures Absolute(p)
    {
      ListedIsAbsolute(text, p);
    }
  }

  lemma LowerPartExists(options: seq<string>, v: string)
    requires Given(options, "lowerdir", v) && GoodParts("lowerdir", Split(v, ':'))
    ensures exists p :: Listed(options, p)
  {
    var p := Split(v, ':')[0];
    assert Absolute(p) && p != "" && p in Split(v, ':');
    assert Listed(options, p);
  }

  // ---- absolute paths, character by character -----------------------------------------------------

  /** What starts here is empty, a dot or two dots, up to the next slash. */
  predicate DotsFrom(s: string, i: nat)
    requires i <= |s|
  {
    || i == |s| || s[i] == '/'
    || (s[i] == '.' && (i + 1 == |s| || s[i + 1] == '/' || (s[i + 1] == '.' && (i + 2 == |s| || s[i + 2] == '/'))))
  }

  predicate NoDots(part: string) {
    part != "" && part != "." && part != ".."
  }

  ghost predicate AllNoDots(parts: seq<string>) {
    forall part :: part in parts ==> NoDots(part)
  }

  predicate SlashOk(s: string, i: nat)
    requires i < |s|
  {
    s[i] == '/' ==> !DotsFrom(s, i + 1)
  }

  ghost predicate SlashesOk(s: string) {
    forall i: nat :: i < |s| ==> SlashOk(s, i)
  }

  ghost predicate NoDotsAnywhere(s: string) {
    !DotsFrom(s, 0) && SlashesOk(s)
  }

  lemma FirstPart(s: string, k: nat)
    requires k == IndexOf(s, '/')
    ensures DotsFrom(s, 0) <==> !NoDots(s[..k])
  {
    assert k > 0 ==> s[..k][0] == s[0];
    assert k > 1 ==> s[..k][1] == s[1];
    assert k == 1 ==> s[..k] == [s[0]];
    assert k == 2 ==> s[..k] == [s[0], s[1]];
  }

  lemma {:induction false} NoSlashInside(s: string)
    requires '/' !in s
    ensures Split(s, '/') == [s]
  {
    if s != "" {
      NoSlashInside(s[1..]);
      assert [s[0]] + s[1..] == s;
    }
  }

  lemma DotsShift(front: string, rest: string, i: nat)
    requires i <= |rest|
    ensures DotsFrom(front + rest, |front| + i) <==> DotsFrom(rest, i)
  {
  }

  lemma SlashShift(front: string, rest: string, i: nat)
    requires i < |rest|
    ensures SlashOk(front + rest, |front| + i) <==> SlashOk(rest, i)
  {
    DotsShift(front, rest, i + 1);
  }

  lemma SlashesOkSplit(front: string, rest: string)
    ensures SlashesOk(front + rest) <==> (forall i: nat :: i < |front| ==> SlashOk(front + rest, i)) && SlashesOk(rest)
  {
    var s := front + rest;
    if SlashesOk(s) {
      forall i: nat | i < |rest|
        ensures SlashOk(rest, i)
      {
        SlashShift(front, rest, i);
        assert SlashOk(s, |front| + i);
      }
    }
    if SlashesOk(rest) && forall i: nat :: i < |front| ==> SlashOk(s, i) {
      forall i: nat | i < |s|
        ensures SlashOk(s, i)
      {
        if i >= |front| {
          SlashShift(front, rest, i - |front|);
        }
      }
    }
  }

  lemma LastSlash(front: string, rest: string)
    requires front != "" && front[|front| - 1] == '/' && forall i :: 0 <= i < |front| - 1 ==> front[i] != '/'
    ensures (forall i: nat :: i < |front| ==> SlashOk(front + rest, i)) <==> !DotsFrom(rest, 0)
  {
    DotsShift(front, rest, 0);
    assert SlashOk(front + rest, |front| - 1) <==> !DotsFrom(rest, 0);
  }

  lemma NoDotsAfter(front: string, rest: string)
    requires front != "" && front[|front| - 1] == '/' && forall i :: 0 <= i < |front| - 1 ==> front[i] != '/'
    ensures NoDotsAnywhere(front + rest) <==> !DotsFrom(front + rest, 0) && NoDotsAnywhere(rest)
  {
    SlashesOkSplit(front, rest);
    LastSlash(front, rest);
  }

  lemma {:induction false} PartsHaveNoDots(s: string)
    ensures AllNoDots(Split(s, '/')) <==> NoDotsAnywhere(s)
    decreases |s|
  {
    var k := IndexOf(s, '/');
    FirstPart(s, k);
    if k == |s| {
      NoSlashInside(s);
      assert s[..k] == s;
    } else {
      var first, rest := s[..k], s[k + 1..];
      assert s == first + "/" + rest;
      SplitJoined(first, rest, '/');
      NoSlashInside(first);
      PartsHaveNoDots(rest);
      NoDotsAfter(first + "/", rest);
      assert forall part :: part in [first] + Split(rest, '/') <==> part == first || part in Split(rest, '/');
    }
  }

  /** A path is absolute and in its shortest spelling exactly when nothing between its slashes is empty, a dot or two dots. */
  lemma AbsoluteIff(s: string)
    ensures Absolute(s) <==>
              && s != "" && s[0] == '/' && (s == "/" || NoDotsAnywhere(s[1..]))
              && forall i :: 0 <= i < |s| ==> s[i] !in {'\\', '\t', '\r', '\n', ' '}
  {
    if s != "" {
      PartsHaveNoDots(s[1..]);
    }
    var bad: string := "\\\t\r\n ";
    forall i | 0 <= i < |s|
      ensures s[i] in bad <==> s[i] in {'\\', '\t', '\r', '\n', ' '}
    {
      assert bad[0] == '\\' && bad[1] == '\t' && bad[2] == '\r' && bad[3] == '\n' && bad[4] == ' ' && |bad| == 5;
    }
  }
}
