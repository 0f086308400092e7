/**
 The two readers of bcdedit's listing. The boot-chain transaction and the boot repair
 parse the same text in different ways; both must recover what was listed.
 */
module BcdParse {
  import opened Text

  /** One parsed object: its identifier, and every value of every field. */
  datatype Parsed = Parsed(id: string, fields: map<string, seq<string>>)

  function LowerWord(s: string): string {
    if s == "" then "" else [Lower(s[0])] + LowerWord(s[1..])
  }

  function Values(fields: map<string, seq<string>>, key: string): seq<string> {
    if key in fields then fields[key] else []
  }

  function AddValue(o: Parsed, key: string, value: string): Parsed {
    o.(fields := o.fields[key := Values(o.fields, key) + [value]])
  }

  /** The value goes to the last object. */
  function AddToLast(objs: seq<Parsed>, key: string, value: string): seq<Parsed> {
    if objs == [] then [] else objs[..|objs| - 1] + [AddValue(objs[|objs| - 1], key, value)]
  }

  // ---- text --------------------------------------------------------------------------------

  function ReplaceLineEnds(s: string): string {
    if s == "" then ""
    else if |s| >= 2 && s[0] == '\r' && s[1] == '\n' then "\n" + ReplaceLineEnds(s[2..])
    else [s[0]] + ReplaceLineEnds(s[1..])
  }

  function ListingLines(text: string): seq<string> {
    Split(ReplaceLineEnds(text), '\n')
  }

  function TrimRightOf(s: string, chars: string): string {
    if s != "" && s[|s| - 1] in chars then TrimRightOf(s[..|s| - 1], chars) else s
  }

  predicate AllDashes(s: string) {
    s != "" && forall i :: 0 <= i < |s| ==> s[i] == '-'
  }

  const TAIL: string := " \t"
  const TAIL_CR: string := " \t\r"

  predicate Indented(line: string)
    requires line != ""
  {
    line[0] == ' ' || line[0] == '\t'
  }

  predicate IsBlankChar(c: char) {
    c == ' ' || c == '\t' || c == '\n' || c == '\r' || c == '\U{000C}'
  }

  /** How many characters from i on are blank, or are not, before the first that differs. */
  function RunLength(s: string, i: nat, blank: bool): (n: nat)
    requires i <= |s|
    ensures i + n <= |s|
    decreases |s| - i
  {
    if i < |s| && IsBlankChar(s[i]) == blank then 1 + RunLength(s, i + 1, blank) else 0
  }

  /** A word, at least two blanks, and a value: the key and the value. */
  function FieldShape(line: string): Option<(string, string)> {
    var k := RunLength(line, 0, false);
    var gap := RunLength(line, k, true);
    if k > 0 && gap >= 2 && k + gap < |line| then Some((line[..k], line[k + gap..])) else None
  }

  function FirstWord(s: string): string {
    if s == "" || IsSpace(s[0]) then "" else [s[0]] + FirstWord(s[1..])
  }

  // ---- what a line is ------------------------------------------------------------------------

  /** Close ends the current object, Start begins one; Value continues the last field. */
  datatype Line = Close | Start | Skip | Value(value: string) | FieldOf(key: string, value: string)

  /** How the transaction's reader takes a line: blank lines and headings close the object. */
  function EnumLine(raw: string): Line {
    var line := TrimRightOf(raw, TAIL_CR);
    if TrimSpace(line) == "" then Close
    else if AllDashes(line) then Skip
    else if Indented(line) then Value(TrimSpace(line))
    else
      match FieldShape(line)
      case None => Close
      case Some((key, value)) => FieldOf(LowerWord(key), TrimSpace(value))
  }

  /** How the repair's reader takes a line: the line above dashes is a heading and starts an object. */
  function EntriesLine(raw: string, next: string): Line {
    var line := TrimRightOf(raw, TAIL);
    var trimmed := TrimSpace(line);
    if trimmed == "" || AllDashes(trimmed) then Skip
    else if AllDashes(TrimSpace(next)) then Start
    else if Indented(line) then Value(trimmed)
    else
      var word := FirstWord(trimmed);
      FieldOf(LowerWord(word), TrimSpace(TrimPrefix(trimmed, word)))
  }

  function First(lines: seq<string>, next: string): string {
    if lines == [] then next else lines[0]
  }

  /** A reader takes a line by itself and the line after it. */
  type Reader = (string, string) -> Line

  function EnumRead(line: string, next: string): Line {
    EnumLine(line)
  }

  function EntriesRead(line: string, next: string): Line {
    EntriesLine(line, next)
  }

  /** The lines as a reader takes them; `next` is what follows the last. */
  function Kinds(lines: seq<string>, next: string, read: Reader): seq<Line> {
    if lines == [] then [] else [read(lines[0], First(lines[1..], next))] + Kinds(lines[1..], next, read)
  }

  // ---- the two readers --------------------------------------------------------------------------

  const IDENTIFIER: string := "identifier"
  const NAMELESS := Parsed("", map[])

  /** The objects so far, whether the last one is open, and the key a continuation belongs to. */
  datatype EnumState = EnumState(objs: seq<Parsed>, open: bool, lastKey: string)

  function EnumStep(st: EnumState, line: Line): EnumState {
    match line
    case Close => EnumState(st.objs, false, "")
    case Start => st
    case Skip => st
    case Value(v) => if st.open && st.lastKey != "" then st.(objs := AddToLast(st.objs, st.lastKey, v)) else st
    case FieldOf(key, v) =>
      if key == IDENTIFIER then EnumState(AddToLast(st.objs + [Parsed(v, map[])], key, v), true, key)
      else if st.open then EnumState(AddToLast(st.objs, key, v), true, key)
      else st
  }

  function EnumRun(st: EnumState, lines: seq<Line>): EnumState
    decreases |lines|
  {
    if lines == [] then st else EnumRun(EnumStep(st, lines[0]), lines[1..])
  }

  function ParseEnum(text: string): seq<Parsed> {
    EnumRun(EnumState([], false, ""), Kinds(ListingLines(text), "", EnumRead)).objs
  }

  datatype EntriesState = EntriesState(objs: seq<Parsed>, lastKey: string)

  function NameLast(objs: seq<Parsed>, id: string): seq<Parsed> {
    if objs == [] then [] else objs[..|objs| - 1] + [objs[|objs| - 1].(id := id)]
  }

  function EntriesStep(st: EntriesState, line: Line): EntriesState {
    match line
    case Close => st
    case Start => EntriesState(st.objs + [NAMELESS], "")
    case Skip => st
    case Value(v) => if st.objs != [] && st.lastKey != "" then st.(objs := AddToLast(st.objs, st.lastKey, v)) else st
    case FieldOf(key, v) =>
      if st.objs == [] then st
      else if key == IDENTIFIER then EntriesState(NameLast(AddToLast(st.objs, key, v), LowerWord(v)), key)
      else EntriesState(AddToLast(st.objs, key, v), key)
  }

  function EntriesRun(st: EntriesState, lines: seq<Line>): EntriesState
    decreases |lines|
  {
    if lines == [] then st else EntriesRun(EntriesStep(st, lines[0]), lines[1..])
  }

  function ParseEntries(text: string): seq<Parsed> {
    EntriesRun(EntriesState([], ""), Kinds(ListingLines(text), "", EntriesRead)).objs
  }

  const DESCRIPTION: string := "description"

  /** The description that the repair's reader keeps beside the fields of each object: the last one it meets. */
  function DescribeStep(ds: seq<string>, line: Line): seq<string> {
    match line
    case Start => ds + [""]
    case FieldOf(key, v) => if ds != [] && key == DESCRIPTION then ds[..|ds| - 1] + [v] else ds
    case _ => ds
  }

  function DescribeRun(ds: seq<string>, lines: seq<Line>): seq<string>
    decreases |lines|
  {
    if lines == [] then ds else DescribeRun(DescribeStep(ds, lines[0]), lines[1..])
  }

  function ParseDescriptions(text: string): seq<string> {
    DescribeRun([], Kinds(ListingLines(text), "", EntriesRead))
  }

  lemma KindsStep(lines: seq<string>, next: string, read: Reader)
    requires lines != []
    ensures var kinds := Kinds(lines, next, read);
            && kinds != [] && kinds[0] == read(lines[0], First(lines[1..], next))
            && kinds[1..] == Kinds(lines[1..], next, read)
  {
  }

  // ---- the readers as loops ----------------------------------------------------------------------

  /** One turn of the transaction's reader. */
  method ReadEnumLine(raw: string, was: seq<Parsed>, wasOpen: bool, wasKey: string)
    returns (objs: seq<Parsed>, open: bool, lastKey: string)
    ensures EnumState(objs, open, lastKey) == EnumStep(EnumState(was, wasOpen, wasKey), EnumLine(raw))
  {
    objs, open, lastKey := was, wasOpen, wasKey;
    var line := TrimRightOf(raw, TAIL_CR);
    if TrimSpace(line) == "" {
      open, lastKey := false, "";
    } else if AllDashes(line) {
    } else if Indented(line) {
      if open && lastKey != "" {
        objs := AddToLast(objs, lastKey, TrimSpace(line));
      }
    } else {
      match FieldShape(line) {
        case None => open, lastKey := false, "";
        case Some((word, rest)) =>
          var key, value := LowerWord(word), TrimSpace(rest);
          if key == IDENTIFIER {
            objs := objs + [Parsed(value, map[])];
            open := true;
          }
          if open {
            objs := AddToLast(objs, key, value);
            lastKey := key;
          }
      }
    }
  }

  method ParseBCDEnum(text: string) returns (objs: seq<Parsed>)
    ensures objs == ParseEnum(text)
  {
    objs := [];
    var open, lastKey := false, "";
    var lines := ListingLines(text);
    assert lines[0..] == lines;
    for i := 0 to |lines|
      invariant ParseEnum(text) == EnumRun(EnumState(objs, open, lastKey), Kinds(lines[i..], "", EnumRead)).objs
    {
      assert lines[i..][1..] == lines[i + 1..];
      KindsStep(lines[i..], "", EnumRead);
      objs, open, lastKey := ReadEnumLine(lines[i], objs, open, lastKey);
    }
  }

  /** One turn of the repair's reader, which looks at the next line too. */
  method ReadEntriesLine(raw: string, next: string, was: seq<Parsed>, wasKey: string, wereDescribed: seq<string>)
    returns (objs: seq<Parsed>, lastKey: string, described: seq<string>)
    requires |wereDescribed| == |was|
    ensures EntriesState(objs, lastKey) == EntriesStep(EntriesState(was, wasKey), EntriesLine(raw, next))
    ensures described == DescribeStep(wereDescribed, EntriesLine(raw, next)) && |described| == |objs|
  {
    objs, lastKey, described := was, wasKey, wereDescribed;
    var line := TrimRightOf(raw, TAIL);
    var trimmed := TrimSpace(line);
    if trimmed == "" || AllDashes(trimmed) {
    } else if AllDashes(TrimSpace(next)) {
      objs, lastKey, described := objs + [NAMELESS], "", described + [""];
    } else if objs == [] {
    } else if Indented(line) {
      if lastKey != "" {
        objs := AddToLast(objs, lastKey, trimmed);
      }
    } else {
      var word := FirstWord(trimmed);
      var key, value := LowerWord(word), TrimSpace(TrimPrefix(trimmed, word));
      objs := AddToLast(objs, key, value);
      if key == IDENTIFIER {
        objs := NameLast(objs, LowerWord(value));
      } else if key == DESCRIPTION {
        described := described[..|described| - 1] + [value];
      }
      lastKey := key;
    }
  }

  method ParseBCDEntries(text: string) returns (objs: seq<Parsed>, described: seq<string>)
    ensures objs == ParseEntries(text)
    ensures described == ParseDescriptions(text) && |described| == |objs|
  {
    objs, described := [], [];
    var lastKey := "";
    var lines := ListingLines(text);
    assert lines[0..] == lines;
    for i := 0 to |lines|
      invariant ParseEntries(text) == EntriesRun(EntriesState(objs, lastKey), Kinds(lines[i..], "", EntriesRead)).objs
      invariant ParseDescriptions(text) == DescribeRun(described, Kinds(lines[i..], "", EntriesRead))
      invariant |described| == |objs|
    {
      assert lines[i..][1..] == lines[i + 1..];
      KindsStep(lines[i..], "", EntriesRead);
      var next := if i + 1 < |lines| then lines[i + 1] else "";
      assert next == First(lines[i + 1..], "");
      objs, lastKey, described := ReadEntriesLine(lines[i], next, objs, lastKey, described);
    }
  }

  // ---- the listing -----------------------------------------------------------------------------------

  /** A field as listed: key, width of the gap, first value, further values on indented lines. */
  datatype Field = Field(key: string, gap: nat, value: string, more: seq<string>)

  /** An object as listed; the identifier comes first. */
  datatype Listed = Listed(heading: string, dashes: string, gap: nat, id: string, fields: seq<Field>)

  /** Text that survives trimming, is on one line and is no underline. */
  predicate IsValue(v: string) {
    && v != "" && !IsSpace(v[0]) && !IsSpace(v[|v| - 1]) && !AllDashes(v)
    && forall i :: 0 <= i < |v| ==> v[i] != '\n' && v[i] != '\r'
  }

  predicate IsKey(k: string) {
    k != "" && forall i :: 0 <= i < |k| ==> !IsSpace(k[i])
  }

  predicate FieldOk(f: Field) {
    && IsKey(f.key) && LowerWord(f.key) != IDENTIFIER && f.gap >= 2
    && IsValue(f.value) && forall v :: v in f.more ==> IsValue(v)
  }

  predicate ListedOk(o: Listed) {
    && IsValue(o.heading) && FieldShape(o.heading).None? && AllDashes(o.dashes)
    && o.gap >= 2 && IsValue(o.id) && forall f :: f in o.fields ==> FieldOk(f)
  }

  function Blanks(n: nat): string {
    if n == 0 then "" else " " + Blanks(n - 1)
  }

  function FieldLine(key: string, gap: nat, value: string): string {
    key + Blanks(gap) + value
  }

  function MoreLine(gap: nat, value: string): string {
    Blanks(gap) + value
  }

  function MoreLines(values: seq<string>, gap: nat): seq<string> {
    if values == [] then [] else [MoreLine(gap, values[0])] + MoreLines(values[1..], gap)
  }

  function FieldLines(f: Field): seq<string> {
    [FieldLine(f.key, f.gap, f.value)] + MoreLines(f.more, f.gap + |f.key|)
  }

  function AllFieldLines(fields: seq<Field>): seq<string> {
    if fields == [] then [] else FieldLines(fields[0]) + AllFieldLines(fields[1..])
  }

  function IdField(o: Listed): Field {
    Field(IDENTIFIER, o.gap, o.id, [])
  }

  function ObjectLines(o: Listed): seq<string> {
    [o.heading, o.dashes] + FieldLines(IdField(o)) + AllFieldLines(o.fields) + [""]
  }

  function AllLines(objs: seq<Listed>): seq<string> {
    if objs == [] then [] else ObjectLines(objs[0]) + AllLines(objs[1..])
  }

  function RenderCRLF(lines: seq<string>): string {
    if lines == [] then "" else lines[0] + "\r\n" + RenderCRLF(lines[1..])
  }

  /** The listing as bcdedit prints it. */
  function Print(objs: seq<Listed>): string {
    RenderCRLF(AllLines(objs))
  }

  // ---- what was listed ----------------------------------------------------------------------------------

  function AddAll(o: Parsed, key: string, values: seq<string>): Parsed
    decreases |values|
  {
    if values == [] then o else AddAll(AddValue(o, key, values[0]), key, values[1..])
  }

  function AddField(o: Parsed, f: Field): Parsed {
    AddAll(AddValue(o, LowerWord(f.key), f.value), LowerWord(f.key), f.more)
  }

  function AddFields(o: Parsed, fields: seq<Field>): Parsed
    decreases |fields|
  {
    if fields == [] then o else AddFields(AddField(o, fields[0]), fields[1..])
  }

  function Meaning(o: Listed): Parsed {
    AddFields(Parsed(o.id, map[IDENTIFIER := [o.id]]), o.fields)
  }

  function Meanings(objs: seq<Listed>): seq<Parsed> {
    if objs == [] then [] else [Meaning(objs[0])] + Meanings(objs[1..])
  }

  /** The object under its identifier in lower case. */
  function LowerId(o: Parsed): Parsed {
    o.(id := LowerWord(o.id))
  }

  /** The same objects under lower-case identifiers. */
  function LowerIds(objs: seq<Parsed>): seq<Parsed> {
    if objs == [] then [] else [LowerId(objs[0])] + LowerIds(objs[1..])
  }

  // ---- single lines --------------------------------------------------------------------------------------

  lemma {:induction false} BlanksAre(n: nat)
    ensures |Blanks(n)| == n && forall i :: 0 <= i < n ==> Blanks(n)[i] == ' '
  {
    if n > 0 {
      BlanksAre(n - 1);
    }
  }

  lemma {:induction false} TrimLeftBlanks(n: nat, v: string)
    requires v != "" && !IsSpace(v[0])
    ensures TrimLeft(Blanks(n) + v) == v
  {
    if n == 0 {
      assert Blanks(0) + v == v;
    } else {
      TrimLeftBlanks(n - 1, v);
      assert (Blanks(n) + v)[1..] == Blanks(n - 1) + v;
    }
  }

  lemma TrimBlanks(n: nat, v: string)
    requires IsValue(v)
    ensures TrimSpace(Blanks(n) + v) == v
  {
    TrimLeftBlanks(n, v);
  }

  lemma {:induction false} RunLengthIs(s: string, i: nat, blank: bool, n: nat)
    requires i + n <= |s|
    requires forall j :: i <= j < i + n ==> IsBlankChar(s[j]) == blank
    requires i + n < |s| ==> IsBlankChar(s[i + n]) != blank
    ensures RunLength(s, i, blank) == n
    decreases n
  {
    if n > 0 {
      RunLengthIs(s, i + 1, blank, n - 1);
    }
  }

  ghost predicate IsBlank(c: char) {
    c in {' ', '\t', '\n', '\r', '\U{000C}'}
  }

  ghost predicate AllBlank(s: string) {
    forall i :: 0 <= i < |s| ==> IsBlank(s[i])
  }

  ghost predicate NoBlank(s: string) {
    forall i :: 0 <= i < |s| ==> !IsBlank(s[i])
  }

  /** The line is a word, two blanks or more, and a value. */
  ghost predicate InTwoColumns(line: string, key: string, gap: string, value: string) {
    line == key + gap + value && key != "" && NoBlank(key) && |gap| >= 2 && AllBlank(gap) && value != "" && !IsBlank(value[0])
  }

  lemma {:induction false} RunLengthStops(s: string, i: nat, blank: bool)
    requires i <= |s|
    ensures var n := RunLength(s, i, blank);
            && (forall j :: i <= j < i + n ==> IsBlankChar(s[j]) == blank)
            && (i + n < |s| ==> IsBlankChar(s[i + n]) != blank)
    decreases |s| - i
  {
    if i < |s| && IsBlankChar(s[i]) == blank {
      RunLengthStops(s, i + 1, blank);
    }
  }

  lemma ColumnsOf(line: string, key: string, gap: string, value: string)
    requires InTwoColumns(line, key, gap, value)
    ensures FieldShape(line) == Some((key, value))
  {
    var k, g := |key|, |gap|;
    assert line[..k] == key && line[k + g..] == value;
    assert forall j :: 0 <= j < k ==> line[j] == key[j];
    assert forall j :: 0 <= j < g ==> line[k + j] == gap[j];
    assert line[k] == gap[0] && line[k + g] == value[0];
    RunLengthIs(line, 0, false, k);
    assert forall j :: k <= j < k + g ==> line[j] == gap[j - k];
    RunLengthIs(line, k, true, g);
  }

  lemma CutInThree(s: string, i: nat, j: nat)
    requires i <= j <= |s|
    ensures s == s[..i] + s[i..j] + s[j..]
  {
  }

  /** A line is taken for a field exactly when it is in two columns. */
  lemma FieldShapeIff(line: string, key: string, value: string)
    ensures FieldShape(line) == Some((key, value)) <==> exists gap: string :: InTwoColumns(line, key, gap, value)
  {
    if FieldShape(line) == Some((key, value)) {
      var k := RunLength(line, 0, false);
      var g := RunLength(line, k, true);
      RunLengthStops(line, 0, false);
      RunLengthStops(line, k, true);
      var gap := line[k..k + g];
      CutInThree(line, k, k + g);
      assert key == line[..k] && value == line[k + g..];
      assert InTwoColumns(line, key, gap, value);
    }
    if gap: string :| InTwoColumns(line, key, gap, value) {
      ColumnsOf(line, key, gap, value);
    }
  }

  /** Text without carriage returns has the line ends it has. */
  lemma {:induction false} NothingToReplace(s: string)
    requires '\r' !in s
    ensures ReplaceLineEnds(s) == s
  {
    if s != "" {
      NothingToReplace(s[1..]);
      assert [s[0]] + s[1..] == s;
    }
  }

  lemma {:induction false} TrailingCut(s: string, tail: string, chars: string)
    requires forall i :: 0 <= i < |tail| ==> tail[i] in chars
    ensures TrimRightOf(s + tail, chars) == TrimRightOf(s, chars)
    decreases |tail|
  {
    if tail == "" {
      assert s + tail == s;
    } else {
      assert (s + tail)[..|s + tail| - 1] == s + tail[..|tail| - 1];
      TrailingCut(s, tail[..|tail| - 1], chars);
    }
  }

  /** Blanks at the end of a line do not matter to either reader. */
  lemma TrailingBlanksIgnored(line: string, tail: string, next: string)
    requires forall i :: 0 <= i < |tail| ==> tail[i] in TAIL
    ensures EnumLine(line + tail) == EnumLine(line) && EntriesLine(line + tail, next) == EntriesLine(line, next)
  {
    assert TAIL[0] == ' ' && TAIL[1] == '\t' && TAIL_CR[0] == ' ' && TAIL_CR[1] == '\t';
    TrailingCut(line, tail, TAIL);
    TrailingCut(line, tail, TAIL_CR);
  }

  lemma FieldLineParts(key: string, gap: nat, value: string)
    requires IsKey(key) && IsValue(value)
    ensures var line := FieldLine(key, gap, value);
            && line[..|key|] == key && |line| == |key| + gap + |value| && line[|key| + gap..] == value
            && line[|key|..] == Blanks(gap) + value
            && (forall j :: 0 <= j < |key| ==> line[j] == key[j])
            && (forall j :: |key| <= j < |key| + gap ==> line[j] == ' ')
  {
    BlanksAre(gap);
  }

  lemma FieldLineShape(key: string, gap: nat, value: string)
    requires IsKey(key) && IsValue(value) && gap >= 2
    ensures FieldShape(FieldLine(key, gap, value)) == Some((key, value))
  {
    FieldLineParts(key, gap, value);
    var line := FieldLine(key, gap, value);
    RunLengthIs(line, 0, false, |key|);
    assert line[|key| + gap] == value[0];
    RunLengthIs(line, |key|, true, gap);
  }

  lemma {:induction false} FirstWordIs(key: string, rest: string)
    requires IsKey(key) && (rest == "" || IsSpace(rest[0]))
    ensures FirstWord(key + rest) == key
    decreases |key|
  {
    var s := key + rest;
    if |key| == 1 {
      assert s[1..] == rest && [key[0]] == key;
    } else {
      assert s[1..] == key[1..] + rest;
      FirstWordIs(key[1..], rest);
      assert [key[0]] + key[1..] == key;
    }
  }

  /** A field line is neither blank, nor indented, nor an underline, and nothing of it is trimmed. */
  lemma FieldLineKind(key: string, gap: nat, value: string)
    requires IsKey(key) && IsValue(value) && gap >= 1
    ensures var line := FieldLine(key, gap, value);
            && line != "" && TrimRightOf(line, TAIL_CR) == line && TrimRightOf(line, TAIL) == line
            && TrimSpace(line) == line && !AllDashes(line) && !Indented(line)
  {
    FieldLineParts(key, gap, value);
    var line := FieldLine(key, gap, value);
    assert line[|line| - 1] == value[|value| - 1] && line[0] == key[0];
    assert line[|key|] == ' ';
  }

  lemma MoreLineKind(gap: nat, value: string)
    requires IsValue(value) && gap >= 1
    ensures var line := MoreLine(gap, value);
            && line != "" && TrimRightOf(line, TAIL_CR) == line && TrimRightOf(line, TAIL) == line
            && TrimSpace(line) == value && !AllDashes(line) && Indented(line)
  {
    BlanksAre(gap);
    TrimBlanks(gap, value);
    var line := MoreLine(gap, value);
    assert line[|line| - 1] == value[|value| - 1] && line[0] == ' ';
  }

  lemma EnumFieldLine(key: string, gap: nat, value: string)
    requires IsKey(key) && IsValue(value) && gap >= 2
    ensures EnumLine(FieldLine(key, gap, value)) == FieldOf(LowerWord(key), value)
  {
    FieldLineKind(key, gap, value);
    FieldLineShape(key, gap, value);
    ValueKind(value);
  }

  lemma EntriesFieldLine(key: string, gap: nat, value: string, next: string)
    requires IsKey(key) && IsValue(value) && gap >= 1 && NoUnderline(next)
    ensures EntriesLine(FieldLine(key, gap, value), next) == FieldOf(LowerWord(key), value)
  {
    FieldLineKind(key, gap, value);
    FieldLineParts(key, gap, value);
    var line := FieldLine(key, gap, value);
    BlanksAre(gap);
    assert line == key + (Blanks(gap) + value);
    FirstWordIs(key, Blanks(gap) + value);
    assert key <= line;
    TrimBlanks(gap, value);
  }

  lemma ValueKind(v: string)
    requires IsValue(v)
    ensures v != "" && TrimRightOf(v, TAIL_CR) == v && TrimRightOf(v, TAIL) == v && TrimSpace(v) == v && !Indented(v)
  {
  }

  lemma DashesKind(d: string)
    requires AllDashes(d)
    ensures d != "" && TrimRightOf(d, TAIL_CR) == d && TrimRightOf(d, TAIL) == d && TrimSpace(d) == d
  {
  }

  lemma IdentifierWord()
    ensures IsKey(IDENTIFIER) && LowerWord(IDENTIFIER) == IDENTIFIER
  {
    var s: string := IDENTIFIER;
    assert forall i :: 0 <= i < |s| ==> 'a' <= s[i] <= 'z';
    LowerIdentity(s);
  }

  lemma {:induction false} LowerIdentity(s: string)
    requires forall i :: 0 <= i < |s| ==> Lower(s[i]) == s[i]
    ensures LowerWord(s) == s
  {
    if s != "" {
      LowerIdentity(s[1..]);
    }
  }

  // ---- what the printed lines are --------------------------------------------------------------

  /** The line is not taken for the underline of the line before it. */
  predicate NoUnderline(line: string) {
    !AllDashes(TrimSpace(line))
  }

  function ValueKinds(values: seq<string>): seq<Line> {
    if values == [] then [] else [Value(values[0])] + ValueKinds(values[1..])
  }

  function FieldKinds(f: Field): seq<Line> {
    [FieldOf(LowerWord(f.key), f.value)] + ValueKinds(f.more)
  }

  function AllFieldKinds(fields: seq<Field>): seq<Line> {
    if fields == [] then [] else FieldKinds(fields[0]) + AllFieldKinds(fields[1..])
  }

  /** What an object's lines are, given what a reader makes of its heading and of its last, blank line. */
  function ObjectKinds(o: Listed, heading: Line, last: Line): seq<Line> {
    [heading, Skip] + FieldKinds(IdField(o)) + AllFieldKinds(o.fields) + [last]
  }

  function AllKinds(objs: seq<Listed>, heading: Line, last: Line): seq<Line> {
    if objs == [] then [] else ObjectKinds(objs[0], heading, last) + AllKinds(objs[1..], heading, last)
  }

  /** What a reader makes of every printed field line, and of the lines that continue it. */
  ghost predicate ReadsFields(read: Reader) {
    && (forall key, gap: nat, v, next {:trigger read(FieldLine(key, gap, v), next)} :: IsKey(key) && IsValue(v) && gap >= 2 && NoUnderline(next) ==>
          read(FieldLine(key, gap, v), next) == FieldOf(LowerWord(key), v))
    && (forall gap: nat, v, next {:trigger read(MoreLine(gap, v), next)} :: IsValue(v) && gap >= 1 && NoUnderline(next) ==>
          read(MoreLine(gap, v), next) == Value(v))
  }

  /** What a reader makes of every printed line; only headings and blank lines are its own affair. */
  ghost predicate ReadsListings(read: Reader, heading: Line, last: Line) {
    && (forall h, d :: IsValue(h) && FieldShape(h).None? && AllDashes(d) ==> read(h, d) == heading)
    && (forall d, next :: AllDashes(d) ==> read(d, next) == Skip)
    && (forall next :: read("", next) == last)
    && ReadsFields(read)
  }

  lemma EnumReadsListings()
    ensures ReadsListings(EnumRead, Close, Close)
  {
    forall h, d | IsValue(h) && FieldShape(h).None? && AllDashes(d)
      ensures EnumRead(h, d) == Close
    {
      ValueKind(h);
    }
    forall d, next: string | AllDashes(d)
      ensures EnumRead(d, next) == Skip
    {
      DashesKind(d);
    }
    forall key, gap: nat, v, next | IsKey(key) && IsValue(v) && gap >= 2 && NoUnderline(next)
      ensures EnumRead(FieldLine(key, gap, v), next) == FieldOf(LowerWord(key), v)
    {
      EnumFieldLine(key, gap, v);
    }
    forall gap: nat, v, next | IsValue(v) && gap >= 1 && NoUnderline(next)
      ensures EnumRead(MoreLine(gap, v), next) == Value(v)
    {
      MoreLineKind(gap, v);
    }
  }

  lemma EntriesReadsListings()
    ensures ReadsListings(EntriesRead, Start, Skip)
  {
    forall h, d | IsValue(h) && FieldShape(h).None? && AllDashes(d)
      ensures EntriesRead(h, d) == Start
    {
      ValueKind(h);
      DashesKind(d);
    }
    forall d, next: string | AllDashes(d)
      ensures EntriesRead(d, next) == Skip
    {
      DashesKind(d);
    }
    forall key, gap: nat, v, next | IsKey(key) && IsValue(v) && gap >= 2 && NoUnderline(next)
      ensures EntriesRead(FieldLine(key, gap, v), next) == FieldOf(LowerWord(key), v)
    {
      EntriesFieldLine(key, gap, v, next);
    }
    forall gap: nat, v, next | IsValue(v) && gap >= 1 && NoUnderline(next)
      ensures EntriesRead(MoreLine(gap, v), next) == Value(v)
    {
      MoreLineKind(gap, v);
    }
  }

  lemma {:induction false} KindsConcat(a: seq<string>, b: seq<string>, next: string, read: Reader)
    ensures Kinds(a + b, next, read) == Kinds(a, First(b, next), read) + Kinds(b, next, read)
  {
    if a == [] {
      assert a + b == b;
    } else {
      assert (a + b)[1..] == a[1..] + b;
      assert First((a + b)[1..], next) == First(a[1..], First(b, next));
      KindsConcat(a[1..], b, next, read);
    }
  }

  lemma KindsOne(line: string, next: string, read: Reader)
    ensures Kinds([line], next, read) == [read(line, next)]
  {
  }

  lemma KindsGlue(a: seq<string>, b: seq<string>, next: string, read: Reader, ka: seq<Line>, kb: seq<Line>)
    requires Kinds(a, First(b, next), read) == ka && Kinds(b, next, read) == kb
    ensures Kinds(a + b, next, read) == ka + kb
  {
    KindsConcat(a, b, next, read);
  }

  lemma PrintedNoUnderline(key: string, gap: nat, v: string)
    requires IsValue(v) && gap >= 1
    ensures NoUnderline(MoreLine(gap, v)) && NoUnderline("")
    ensures IsKey(key) ==> NoUnderline(FieldLine(key, gap, v))
  {
    MoreLineKind(gap, v);
    if IsKey(key) {
      FieldLineKind(key, gap, v);
    }
  }

  /** What the lines are taken for, and whether the first of them is no underline. */
  ghost function Reading(lines: seq<string>, next: string, read: Reader): (seq<Line>, bool) {
    (Kinds(lines, next, read), NoUnderline(First(lines, next)))
  }

  lemma KindsCons(line: string, more: seq<string>, next: string, read: Reader, k: Line, ks: seq<Line>)
    requires Reading(more, next, read) == (ks, true)
    requires read(line, First(more, next)) == k && NoUnderline(line)
    ensures Reading([line] + more, next, read) == ([k] + ks, true)
  {
  }

  lemma {:induction false} MoreKinds(values: seq<string>, gap: nat, next: string, read: Reader)
    requires ReadsFields(read)
    requires gap >= 1 && NoUnderline(next) && forall v :: v in values ==> IsValue(v)
    ensures Reading(MoreLines(values, gap), next, read) == (ValueKinds(values), true)
  {
    if values != [] {
      assert values[0] in values;
      PrintedNoUnderline("", gap, values[0]);
      MoreKinds(values[1..], gap, next, read);
      KindsCons(MoreLine(gap, values[0]), MoreLines(values[1..], gap), next, read, Value(values[0]), ValueKinds(values[1..]));
    }
  }

  lemma FieldLineKinds(f: Field, more: seq<string>, next: string, read: Reader, ks: seq<Line>)
    requires ReadsFields(read) && IsKey(f.key) && f.gap >= 2 && IsValue(f.value)
    ensures Reading(more, next, read) == (ks, true) ==>
              Reading([FieldLine(f.key, f.gap, f.value)] + more, next, read) == ([FieldOf(LowerWord(f.key), f.value)] + ks, true)
  {
    PrintedNoUnderline(f.key, f.gap, f.value);
    if Reading(more, next, read) == (ks, true) {
      KindsCons(FieldLine(f.key, f.gap, f.value), more, next, read, FieldOf(LowerWord(f.key), f.value), ks);
    }
  }

  lemma FieldLinesAre(f: Field)
    ensures FieldLines(f) == [FieldLine(f.key, f.gap, f.value)] + MoreLines(f.more, f.gap + |f.key|)
    ensures FieldKinds(f) == [FieldOf(LowerWord(f.key), f.value)] + ValueKinds(f.more)
  {
  }

  ghost predicate AllValues(values: seq<string>) {
    forall v :: v in values ==> IsValue(v)
  }

  lemma FieldLinesKinds(f: Field, next: string, read: Reader)
    requires ReadsFields(read)
    requires IsKey(f.key) && f.gap >= 2 && IsValue(f.value) && NoUnderline(next) && forall v :: v in f.more ==> IsValue(v)
    ensures Reading(FieldLines(f), next, read) == (FieldKinds(f), true)
  {
    assert AllValues(f.more);
    FieldKindsFrom(f, next, read);
  }

  lemma MoreKindsOf(f: Field, next: string, read: Reader)
    ensures ReadsFields(read) && f.gap >= 1 && NoUnderline(next) && AllValues(f.more) ==>
              Reading(MoreLines(f.more, f.gap + |f.key|), next, read) == (ValueKinds(f.more), true)
  {
    if ReadsFields(read) && f.gap >= 1 && NoUnderline(next) && AllValues(f.more) {
      MoreKinds(f.more, f.gap + |f.key|, next, read);
    }
  }

  lemma FirstLineOf(f: Field, next: string, read: Reader)
    ensures ReadsFields(read) && IsKey(f.key) && f.gap >= 2 && IsValue(f.value)
            && Reading(MoreLines(f.more, f.gap + |f.key|), next, read) == (ValueKinds(f.more), true) ==>
              Reading(FieldLines(f), next, read) == (FieldKinds(f), true)
  {
    if ReadsFields(read) && IsKey(f.key) && f.gap >= 2 && IsValue(f.value) {
      FieldLineKinds(f, MoreLines(f.more, f.gap + |f.key|), next, read, ValueKinds(f.more));
      FieldLinesAre(f);
    }
  }

  lemma FieldKindsFrom(f: Field, next: string, read: Reader)
    ensures ReadsFields(read) && IsKey(f.key) && f.gap >= 2 && IsValue(f.value) && NoUnderline(next) && AllValues(f.more) ==>
              Reading(FieldLines(f), next, read) == (FieldKinds(f), true)
  {
    MoreKindsOf(f, next, read);
    FirstLineOf(f, next, read);
  }

  lemma {:induction false} AllFieldLinesKinds(fields: seq<Field>, next: string, read: Reader)
    requires ReadsFields(read)
    requires NoUnderline(next) && forall f :: f in fields ==> FieldOk(f)
    ensures Reading(AllFieldLines(fields), next, read) == (AllFieldKinds(fields), true)
  {
    if fields != [] {
      var rest := AllFieldLines(fields[1..]);
      assert fields[0] in fields;
      AllFieldLinesKinds(fields[1..], next, read);
      FieldLinesKinds(fields[0], First(rest, next), read);
      KindsConcat(FieldLines(fields[0]), rest, next, read);
    }
  }

  lemma HeadKinds(o: Listed, next: string, read: Reader, heading: Line, last: Line)
    requires ReadsListings(read, heading, last) && ListedOk(o)
    ensures Kinds([o.heading, o.dashes], next, read) == [heading, Skip]
  {
    var both, second: seq<string> := [o.heading, o.dashes], [o.dashes];
    assert both[1..] == second;
    KindsOne(o.dashes, next, read);
  }

  lemma ObjectLinesKinds(o: Listed, next: string, read: Reader, heading: Line, last: Line)
    requires ReadsListings(read, heading, last) && ListedOk(o)
    ensures Kinds(ObjectLines(o), next, read) == ObjectKinds(o, heading, last)
  {
    var head, id, rest := [o.heading, o.dashes], FieldLines(IdField(o)), AllFieldLines(o.fields);
    PrintedNoUnderline("", 1, o.id);
    AllFieldLinesKinds(o.fields, "", read);
    IdentifierWord();
    FieldLinesKinds(IdField(o), First(rest, ""), read);
    HeadKinds(o, First(id, First(rest, "")), read, heading, last);
    KindsOne("", next, read);
    ObjectGlue(head, id, rest, next, read, [heading, Skip], FieldKinds(IdField(o)), AllFieldKinds(o.fields), last);
  }

  lemma ObjectGlue(
    head: seq<string>, id: seq<string>, rest: seq<string>, next: string, read: Reader,
    kHead: seq<Line>, kId: seq<Line>, kRest: seq<Line>, last: Line)
    requires Kinds(head, First(id, First(rest, "")), read) == kHead && Kinds(id, First(rest, ""), read) == kId
    requires Kinds(rest, "", read) == kRest && Kinds([""], next, read) == [last]
    ensures Kinds(head + id + rest + [""], next, read) == kHead + kId + kRest + [last]
  {
    KindsGlue(head, id, First(rest, ""), read, kHead, kId);
    KindsGlue(head + id, rest, "", read, kHead + kId, kRest);
    KindsGlue(head + id + rest, [""], next, read, kHead + kId + kRest, [last]);
  }

  lemma {:induction false} AllLinesKinds(objs: seq<Listed>, next: string, read: Reader, heading: Line, last: Line)
    requires ReadsListings(read, heading, last) && forall o :: o in objs ==> ListedOk(o)
    ensures Kinds(AllLines(objs), next, read) == AllKinds(objs, heading, last)
  {
    if objs != [] {
      var rest := AllLines(objs[1..]);
      assert objs[0] in objs;
      ObjectLinesKinds(objs[0], First(rest, next), read, heading, last);
      AllLinesKinds(objs[1..], next, read, heading, last);
      KindsConcat(ObjectLines(objs[0]), rest, next, read);
    }
  }

  /** The printed text as a reader takes it. */
  lemma PrintedKinds(objs: seq<Listed>, read: Reader, heading: Line, last: Line)
    requires ReadsListings(read, heading, last) && forall o :: o in objs ==> ListedOk(o)
    ensures Kinds(AllLines(objs) + [""], "", read) == AllKinds(objs, heading, last) + [last]
  {
    AllLinesKinds(objs, "", read, heading, last);
    KindsConcat(AllLines(objs), [""], "", read);
    KindsOne("", "", read);
  }

  // ---- both readers recover the objects ------------------------------------------------------------

  lemma {:induction false} EnumRunConcat(st: EnumState, a: seq<Line>, b: seq<Line>)
    ensures EnumRun(st, a + b) == EnumRun(EnumRun(st, a), b)
    decreases |a|
  {
    if a == [] {
      assert a + b == b;
    } else {
      assert (a + b)[1..] == a[1..] + b;
      EnumRunConcat(EnumStep(st, a[0]), a[1..], b);
    }
  }

  lemma {:induction false} EntriesRunConcat(st: EntriesState, a: seq<Line>, b: seq<Line>)
    ensures EntriesRun(st, a + b) == EntriesRun(EntriesRun(st, a), b)
    decreases |a|
  {
    if a == [] {
      assert a + b == b;
    } else {
      assert (a + b)[1..] == a[1..] + b;
      EntriesRunConcat(EntriesStep(st, a[0]), a[1..], b);
    }
  }

  lemma EnumRunOne(st: EnumState, line: Line)
    ensures EnumRun(st, [line]) == EnumStep(st, line)
  {
  }

  lemma EntriesRunOne(st: EntriesState, line: Line)
    ensures EntriesRun(st, [line]) == EntriesStep(st, line)
  {
  }

  lemma LastUpdated(done: seq<Parsed>, o: Parsed, key: string, value: string)
    ensures AddToLast(done + [o], key, value) == done + [AddValue(o, key, value)]
  {
  }

  lemma {:induction false} RunValues(done: seq<Parsed>, o: Parsed, key: string, values: seq<string>)
    requires key != ""
    ensures EnumRun(EnumState(done + [o], true, key), ValueKinds(values))
            == EnumState(done + [AddAll(o, key, values)], true, key)
    ensures EntriesRun(EntriesState(done + [o], key), ValueKinds(values))
            == EntriesState(done + [AddAll(o, key, values)], key)
    decreases |values|
  {
    if values != [] {
      LastUpdated(done, o, key, values[0]);
      RunValues(done, AddValue(o, key, values[0]), key, values[1..]);
    }
  }

  lemma LowerWordLength(s: string)
    ensures |LowerWord(s)| == |s|
  {
  }

  lemma RunField(done: seq<Parsed>, o: Parsed, lastKey: string, f: Field)
    requires FieldOk(f)
    ensures EnumRun(EnumState(done + [o], true, lastKey), FieldKinds(f))
            == EnumState(done + [AddField(o, f)], true, LowerWord(f.key))
    ensures EntriesRun(EntriesState(done + [o], lastKey), FieldKinds(f))
            == EntriesState(done + [AddField(o, f)], LowerWord(f.key))
  {
    var key := LowerWord(f.key);
    var first := FieldOf(key, f.value);
    LowerWordLength(f.key);
    LastUpdated(done, o, key, f.value);
    RunValues(done, AddValue(o, key, f.value), key, f.more);
    EnumRunConcat(EnumState(done + [o], true, lastKey), [first], ValueKinds(f.more));
    EntriesRunConcat(EntriesState(done + [o], lastKey), [first], ValueKinds(f.more));
    EnumRunOne(EnumState(done + [o], true, lastKey), first);
    EntriesRunOne(EntriesState(done + [o], lastKey), first);
  }

  lemma {:induction false} RunFields(done: seq<Parsed>, o: Parsed, lastKey: string, fields: seq<Field>)
    requires forall f :: f in fields ==> FieldOk(f)
    ensures EnumRun(EnumState(done + [o], true, lastKey), AllFieldKinds(fields)).objs == done + [AddFields(o, fields)]
    ensures EntriesRun(EntriesState(done + [o], lastKey), AllFieldKinds(fields)).objs == done + [AddFields(o, fields)]
    decreases |fields|
  {
    if fields != [] {
      assert fields[0] in fields;
      var rest := AllFieldKinds(fields[1..]);
      RunField(done, o, lastKey, fields[0]);
      EnumRunConcat(EnumState(done + [o], true, lastKey), FieldKinds(fields[0]), rest);
      EntriesRunConcat(EntriesState(done + [o], lastKey), FieldKinds(fields[0]), rest);
      RunFields(done, AddField(o, fields[0]), LowerWord(fields[0].key), fields[1..]);
    }
  }

  /** The object after its identifier line. */
  function Opened(id: string, raw: string): Parsed {
    Parsed(id, map[IDENTIFIER := [raw]])
  }

  lemma FirstField(id: string, raw: string)
    ensures AddValue(Parsed(id, map[]), IDENTIFIER, raw) == Opened(id, raw)
  {
    var none: map<string, seq<string>> := map[];
    assert Values(none, IDENTIFIER) + [raw] == [raw];
    assert none[IDENTIFIER := [raw]] == map[IDENTIFIER := [raw]];
  }

  lemma IdKinds(o: Listed)
    ensures FieldKinds(IdField(o)) == [FieldOf(IDENTIFIER, o.id)]
  {
    IdentifierWord();
  }

  lemma EnumIdentifier(objs: seq<Parsed>, o: Listed)
    ensures EnumRun(EnumState(objs, false, ""), FieldKinds(IdField(o))) == EnumState(objs + [Opened(o.id, o.id)], true, IDENTIFIER)
  {
    IdKinds(o);
    EnumRunOne(EnumState(objs, false, ""), FieldOf(IDENTIFIER, o.id));
    LastUpdated(objs, Parsed(o.id, map[]), IDENTIFIER, o.id);
    FirstField(o.id, o.id);
  }

  lemma EntriesIdentifier(objs: seq<Parsed>, o: Listed)
    ensures EntriesRun(EntriesState(objs + [NAMELESS], ""), FieldKinds(IdField(o)))
            == EntriesState(objs + [Opened(LowerWord(o.id), o.id)], IDENTIFIER)
  {
    IdKinds(o);
    EntriesRunOne(EntriesState(objs + [NAMELESS], ""), FieldOf(IDENTIFIER, o.id));
    LastUpdated(objs, NAMELESS, IDENTIFIER, o.id);
    FirstField("", o.id);
    assert (objs + [Opened("", o.id)])[..|objs|] == objs;
  }

  lemma EnumObject(st: EnumState, o: Listed)
    requires ListedOk(o)
    ensures EnumRun(st, ObjectKinds(o, Close, Close)) == EnumState(st.objs + [Meaning(o)], false, "")
  {
    var id, rest := FieldKinds(IdField(o)), AllFieldKinds(o.fields);
    var closed := EnumState(st.objs, false, "");
    EnumRunConcat(st, [Close, Skip] + id + rest, [Close]);
    EnumRunConcat(st, [Close, Skip] + id, rest);
    EnumRunConcat(st, [Close, Skip], id);
    EnumRunConcat(st, [Close], [Skip]);
    assert [Close] + [Skip] == [Close, Skip];
    EnumRunOne(st, Close);
    EnumRunOne(closed, Skip);
    EnumIdentifier(st.objs, o);
    RunFields(st.objs, Opened(o.id, o.id), IDENTIFIER, o.fields);
    EnumRunOne(EnumRun(EnumState(st.objs + [Opened(o.id, o.id)], true, IDENTIFIER), rest), Close);
  }

  lemma {:induction false} AddAllKeepsId(o: Parsed, key: string, values: seq<string>, id: string)
    ensures AddAll(o.(id := id), key, values) == AddAll(o, key, values).(id := id)
    decreases |values|
  {
    if values != [] {
      AddAllKeepsId(AddValue(o, key, values[0]), key, values[1..], id);
    }
  }

  lemma {:induction false} AddFieldsKeepsId(o: Parsed, fields: seq<Field>, id: string)
    ensures AddFields(o.(id := id), fields) == AddFields(o, fields).(id := id)
    decreases |fields|
  {
    if fields != [] {
      var key := LowerWord(fields[0].key);
      AddAllKeepsId(AddValue(o, key, fields[0].value), key, fields[0].more, id);
      AddFieldsKeepsId(AddField(o, fields[0]), fields[1..], id);
    }
  }

  lemma MeaningLowered(o: Listed)
    ensures AddFields(Opened(LowerWord(o.id), o.id), o.fields) == LowerId(Meaning(o))
  {
    var start := Opened(o.id, o.id);
    AddFieldsKeepsId(start, o.fields, o.id);
    assert start.(id := o.id) == start;
    AddFieldsKeepsId(start, o.fields, LowerWord(o.id));
  }

  lemma EntriesBegin(st: EntriesState, o: Listed)
    ensures EntriesRun(st, [Start, Skip] + FieldKinds(IdField(o)))
            == EntriesState(st.objs + [Opened(LowerWord(o.id), o.id)], IDENTIFIER)
  {
    var started := EntriesState(st.objs + [NAMELESS], "");
    EntriesRunConcat(st, [Start, Skip], FieldKinds(IdField(o)));
    EntriesRunConcat(st, [Start], [Skip]);
    assert [Start] + [Skip] == [Start, Skip];
    EntriesRunOne(st, Start);
    EntriesRunOne(started, Skip);
    EntriesIdentifier(st.objs, o);
  }

  lemma EntriesSkipLast(st: EntriesState, a: seq<Line>)
    ensures EntriesRun(st, a + [Skip]) == EntriesRun(st, a)
  {
    EntriesRunConcat(st, a, [Skip]);
    EntriesRunOne(EntriesRun(st, a), Skip);
  }

  lemma EntriesObject(st: EntriesState, o: Listed)
    requires ListedOk(o)
    ensures EntriesRun(st, ObjectKinds(o, Start, Skip)).objs == st.objs + [LowerId(Meaning(o))]
  {
    var begin, rest := [Start, Skip] + FieldKinds(IdField(o)), AllFieldKinds(o.fields);
    var m := Opened(LowerWord(o.id), o.id);
    EntriesBegin(st, o);
    RunFields(st.objs, m, IDENTIFIER, o.fields);
    MeaningLowered(o);
    EntriesRunConcat(st, begin, rest);
    EntriesSkipLast(st, begin + rest);
  }

  lemma EnumGlue(st: EnumState, a: seq<Line>, b: seq<Line>, mid: EnumState, m: Parsed, ms: seq<Parsed>)
    requires EnumRun(st, a) == mid && mid.objs == st.objs + [m] && EnumRun(mid, b).objs == mid.objs + ms
    ensures EnumRun(st, a + b).objs == st.objs + ([m] + ms)
  {
    EnumRunConcat(st, a, b);
  }

  lemma EntriesGlue(st: EntriesState, a: seq<Line>, b: seq<Line>, mid: EntriesState, m: Parsed, ms: seq<Parsed>)
    requires EntriesRun(st, a) == mid && mid.objs == st.objs + [m] && EntriesRun(mid, b).objs == mid.objs + ms
    ensures EntriesRun(st, a + b).objs == st.objs + ([m] + ms)
  {
    EntriesRunConcat(st, a, b);
  }

  lemma {:induction false} EnumObjects(st: EnumState, objs: seq<Listed>)
    requires forall o :: o in objs ==> ListedOk(o)
    ensures EnumRun(st, AllKinds(objs, Close, Close)).objs == st.objs + Meanings(objs)
    decreases |objs|
  {
    if objs != [] {
      assert objs[0] in objs;
      var m := Meaning(objs[0]);
      var mid := EnumState(st.objs + [m], false, "");
      EnumObjects(mid, objs[1..]);
      EnumObject(st, objs[0]);
      EnumGlue(st, ObjectKinds(objs[0], Close, Close), AllKinds(objs[1..], Close, Close), mid, m, Meanings(objs[1..]));
    }
  }

  lemma {:induction false} EntriesObjects(st: EntriesState, objs: seq<Listed>)
    requires forall o :: o in objs ==> ListedOk(o)
    ensures EntriesRun(st, AllKinds(objs, Start, Skip)).objs == st.objs + LowerIds(Meanings(objs))
    decreases |objs|
  {
    if objs != [] {
      assert objs[0] in objs;
      var m := LowerId(Meaning(objs[0]));
      var first := ObjectKinds(objs[0], Start, Skip);
      var mid := EntriesRun(st, first);
      EntriesObjects(mid, objs[1..]);
      EntriesObject(st, objs[0]);
      EntriesGlue(st, first, AllKinds(objs[1..], Start, Skip), mid, m, LowerIds(Meanings(objs[1..])));
      LowerIdsStep(objs);
    }
  }

  lemma LowerIdsStep(objs: seq<Listed>)
    requires objs != []
    ensures LowerIds(Meanings(objs)) == [LowerId(Meaning(objs[0]))] + LowerIds(Meanings(objs[1..]))
  {
  }

  // ---- from text to lines --------------------------------------------------------------------------------------------

  /** No line end inside. */
  predicate Solid(s: string) {
    forall i :: 0 <= i < |s| ==> s[i] != '\n' && s[i] != '\r'
  }

  lemma {:induction false} ReplaceAfterLine(line: string, rest: string)
    requires Solid(line)
    ensures ReplaceLineEnds(line + "\r\n" + rest) == line + "\n" + ReplaceLineEnds(rest)
  {
    var s := line + "\r\n" + rest;
    if line == "" {
      assert s[2..] == rest;
    } else {
      assert s[1..] == line[1..] + "\r\n" + rest;
      assert s[0] == line[0] && line[0] != '\r';
      ReplaceAfterLine(line[1..], rest);
      assert [line[0]] + line[1..] == line;
    }
  }

  lemma {:induction false} ReplaceRendered(lines: seq<string>)
    requires forall l :: l in lines ==> Solid(l)
    ensures ReplaceLineEnds(RenderCRLF(lines)) == Render(lines)
  {
    if lines != [] {
      assert lines[0] in lines;
      ReplaceAfterLine(lines[0], RenderCRLF(lines[1..]));
      ReplaceRendered(lines[1..]);
    }
  }

  lemma {:induction false} MoreLinesSolid(values: seq<string>, gap: nat)
    requires forall v :: v in values ==> IsValue(v)
    ensures forall l :: l in MoreLines(values, gap) ==> Solid(l)
  {
    if values != [] {
      assert values[0] in values;
      BlanksAre(gap);
      MoreLinesSolid(values[1..], gap);
    }
  }

  lemma FieldLinesSolid(f: Field)
    requires IsKey(f.key) && IsValue(f.value) && forall v :: v in f.more ==> IsValue(v)
    ensures forall l :: l in FieldLines(f) ==> Solid(l)
  {
    BlanksAre(f.gap);
    MoreLinesSolid(f.more, f.gap + |f.key|);
    assert forall i :: 0 <= i < |f.key| ==> !IsSpace(f.key[i]);
  }

  lemma {:induction false} AllFieldLinesSolid(fields: seq<Field>)
    requires forall f :: f in fields ==> FieldOk(f)
    ensures forall l :: l in AllFieldLines(fields) ==> Solid(l)
  {
    if fields != [] {
      assert fields[0] in fields;
      FieldLinesSolid(fields[0]);
      AllFieldLinesSolid(fields[1..]);
    }
  }

  ghost predicate AllSolid(lines: seq<string>) {
    forall l :: l in lines ==> Solid(l)
  }

  lemma SolidConcat(a: seq<string>, b: seq<string>)
    requires AllSolid(a) && AllSolid(b)
    ensures AllSolid(a + b)
  {
  }

  lemma HeadSolid(o: Listed)
    requires ListedOk(o)
    ensures AllSolid([o.heading, o.dashes]) && AllSolid([""])
  {
  }

  lemma ObjectLinesSolid(o: Listed)
    requires ListedOk(o)
    ensures AllSolid(ObjectLines(o))
  {
    HeadSolid(o);
    IdentifierWord();
    FieldLinesSolid(IdField(o));
    AllFieldLinesSolid(o.fields);
    SolidConcat([o.heading, o.dashes], FieldLines(IdField(o)));
    SolidConcat([o.heading, o.dashes] + FieldLines(IdField(o)), AllFieldLines(o.fields));
    SolidConcat([o.heading, o.dashes] + FieldLines(IdField(o)) + AllFieldLines(o.fields), [""]);
  }

  lemma {:induction false} AllLinesSolid(objs: seq<Listed>)
    requires forall o :: o in objs ==> ListedOk(o)
    ensures forall l :: l in AllLines(objs) ==> Solid(l)
  {
    if objs != [] {
      assert objs[0] in objs;
      ObjectLinesSolid(objs[0]);
      AllLinesSolid(objs[1..]);
    }
  }

  lemma PrintedLines(objs: seq<Listed>)
    requires forall o :: o in objs ==> ListedOk(o)
    ensures ListingLines(Print(objs)) == AllLines(objs) + [""]
  {
    AllLinesSolid(objs);
    ReplaceRendered(AllLines(objs));
    assert forall l :: l in AllLines(objs) ==> OneLine(l);
    SplitRendered(AllLines(objs));
  }

  lemma EnumInverts(objs: seq<Listed>)
    requires forall o :: o in objs ==> ListedOk(o)
    ensures ParseEnum(Print(objs)) == Meanings(objs)
  {
    var st, kinds := EnumState([], false, ""), AllKinds(objs, Close, Close);
    PrintedLines(objs);
    EnumReadsListings();
    PrintedKinds(objs, EnumRead, Close, Close);
    EnumObjects(st, objs);
    EnumRunConcat(st, kinds, [Close]);
    EnumRunOne(EnumRun(st, kinds), Close);
  }

  lemma EntriesInverts(objs: seq<Listed>)
    requires forall o :: o in objs ==> ListedOk(o)
    ensures ParseEntries(Print(objs)) == LowerIds(Meanings(objs))
  {
    var st, kinds := EntriesState([], ""), AllKinds(objs, Start, Skip);
    PrintedLines(objs);
    EntriesReadsListings();
    PrintedKinds(objs, EntriesRead, Start, Skip);
    EntriesObjects(st, objs);
    EntriesSkipLast(st, kinds);
  }

  /**
   Printing a listing and parsing it gives back exactly what was listed, with either
   reader; the repair's reader also puts the identifiers in lower case. So the two
   agree on every field, the boot lists among them.
   */
  lemma ParsersInvertPrinter(objs: seq<Listed>)
    requires forall o :: o in objs ==> ListedOk(o)
    ensures ParseEnum(Print(objs)) == Meanings(objs)
    ensures ParseEntries(Print(objs)) == LowerIds(ParseEnum(Print(objs)))
  {
    EnumInverts(objs);
    EntriesInverts(objs);
  }

  // ---- which description each reader goes by ---------------------------------------------------

  predicate IsDescription(f: Field) {
    LowerWord(f.key) == DESCRIPTION
  }

  function FirstDescription(fields: seq<Field>): string {
    if fields == [] then "" else if IsDescription(fields[0]) then fields[0].value else FirstDescription(fields[1..])
  }

  function LastDescription(fields: seq<Field>, was: string): string
    decreases |fields|
  {
    if fields == [] then was else LastDescription(fields[1..], if IsDescription(fields[0]) then fields[0].value else was)
  }

  function LastDescriptions(objs: seq<Listed>): seq<string> {
    if objs == [] then [] else [LastDescription(objs[0].fields, "")] + LastDescriptions(objs[1..])
  }

  /** What the transaction's reader takes for the description of an object. */
  function FirstValue(o: Parsed): string {
    var values := Values(o.fields, DESCRIPTION);
    if values == [] then "" else values[0]
  }

  lemma {:induction false} DescribeConcat(ds: seq<string>, a: seq<Line>, b: seq<Line>)
    ensures DescribeRun(ds, a + b) == DescribeRun(DescribeRun(ds, a), b)
    decreases |a|
  {
    if a == [] {
      assert a + b == b;
    } else {
      assert (a + b)[1..] == a[1..] + b;
      DescribeConcat(DescribeStep(ds, a[0]), a[1..], b);
    }
  }

  lemma {:induction false} DescribeValues(ds: seq<string>, values: seq<string>)
    ensures DescribeRun(ds, ValueKinds(values)) == ds
  {
    if values != [] {
      DescribeValues(ds, values[1..]);
    }
  }

  lemma DescribeField(done: seq<string>, d: string, f: Field)
    ensures DescribeRun(done + [d], FieldKinds(f)) == done + [if IsDescription(f) then f.value else d]
  {
    var ds := done + [if IsDescription(f) then f.value else d];
    assert (done + [d])[..|done|] == done;
    DescribeValues(ds, f.more);
    assert FieldKinds(f)[1..] == ValueKinds(f.more);
  }

  lemma {:induction false} DescribeFields(done: seq<string>, d: string, fields: seq<Field>)
    ensures DescribeRun(done + [d], AllFieldKinds(fields)) == done + [LastDescription(fields, d)]
    decreases |fields|
  {
    if fields != [] {
      DescribeField(done, d, fields[0]);
      DescribeConcat(done + [d], FieldKinds(fields[0]), AllFieldKinds(fields[1..]));
      DescribeFields(done, if IsDescription(fields[0]) then fields[0].value else d, fields[1..]);
    }
  }

  lemma DescribeObject(ds: seq<string>, o: Listed)
    ensures DescribeRun(ds, ObjectKinds(o, Start, Skip)) == ds + [LastDescription(o.fields, "")]
  {
    var id, rest := FieldKinds(IdField(o)), AllFieldKinds(o.fields);
    DescribeConcat(ds, [Start, Skip] + id + rest, [Skip]);
    DescribeConcat(ds, [Start, Skip] + id, rest);
    DescribeConcat(ds, [Start, Skip], id);
    assert [Start, Skip][1..] == [Skip] && [Skip][1..] == [];
    IdentifierWord();
    DescribeField(ds, "", IdField(o));
    DescribeFields(ds, "", o.fields);
  }

  lemma DescribeGlue(ds: seq<string>, a: seq<Line>, b: seq<Line>, d: string, more: seq<string>)
    requires DescribeRun(ds, a) == ds + [d] && DescribeRun(ds + [d], b) == ds + [d] + more
    ensures DescribeRun(ds, a + b) == ds + ([d] + more)
  {
    DescribeConcat(ds, a, b);
  }

  lemma {:induction false} DescribeObjects(ds: seq<string>, objs: seq<Listed>)
    ensures DescribeRun(ds, AllKinds(objs, Start, Skip)) == ds + LastDescriptions(objs)
    decreases |objs|
  {
    if objs != [] {
      var d := LastDescription(objs[0].fields, "");
      DescribeObject(ds, objs[0]);
      DescribeObjects(ds + [d], objs[1..]);
      DescribeGlue(ds, ObjectKinds(objs[0], Start, Skip), AllKinds(objs[1..], Start, Skip), d, LastDescriptions(objs[1..]));
    }
  }

  lemma DescribeSkipLast(ds: seq<string>, a: seq<Line>)
    ensures DescribeRun(ds, a + [Skip]) == DescribeRun(ds, a)
  {
    DescribeConcat(ds, a, [Skip]);
    DescribeRunOne(DescribeRun(ds, a), Skip);
  }

  lemma DescribeRunOne(ds: seq<string>, line: Line)
    ensures DescribeRun(ds, [line]) == DescribeStep(ds, line)
  {
  }

  lemma DescriptionsInvert(objs: seq<Listed>)
    requires forall o :: o in objs ==> ListedOk(o)
    ensures ParseDescriptions(Print(objs)) == LastDescriptions(objs)
  {
    var kinds := AllKinds(objs, Start, Skip);
    PrintedLines(objs);
    EntriesReadsListings();
    PrintedKinds(objs, EntriesRead, Start, Skip);
    DescribeObjects([], objs);
    DescribeSkipLast([], kinds);
  }

  lemma {:induction false} AddAllKeepsFirst(o: Parsed, key: string, values: seq<string>)
    requires key != DESCRIPTION || Values(o.fields, DESCRIPTION) != []
    ensures FirstValue(AddAll(o, key, values)) == FirstValue(o)
    ensures Values(AddAll(o, key, values).fields, DESCRIPTION) == [] <==> Values(o.fields, DESCRIPTION) == []
    decreases |values|
  {
    if values != [] {
      AddAllKeepsFirst(AddValue(o, key, values[0]), key, values[1..]);
    }
  }

  lemma {:induction false} FirstIsKept(o: Parsed, fields: seq<Field>)
    ensures FirstValue(AddFields(o, fields))
            == if Values(o.fields, DESCRIPTION) != [] then FirstValue(o) else FirstDescription(fields)
    decreases |fields|
  {
    if fields != [] {
      var f := fields[0];
      AddAllKeepsFirst(AddValue(o, LowerWord(f.key), f.value), LowerWord(f.key), f.more);
      FirstIsKept(AddField(o, f), fields[1..]);
    }
  }

  lemma {:induction false} MeaningsAt(objs: seq<Listed>, k: nat)
    requires k < |objs|
    ensures |Meanings(objs)| == |LastDescriptions(objs)| == |objs|
    ensures Meanings(objs)[k] == Meaning(objs[k])
    ensures LastDescriptions(objs)[k] == LastDescription(objs[k].fields, "")
  {
    if |objs| > 1 {
      MeaningsAt(objs[1..], if k > 0 then k - 1 else 0);
    }
  }

  lemma {:induction false} UndescribedKeeps(fields: seq<Field>, was: string)
    requires forall f :: f in fields ==> !IsDescription(f)
    ensures LastDescription(fields, was) == was
    decreases |fields|
  {
    if fields != [] {
      UndescribedKeeps(fields[1..], was);
    }
  }

  /** No two fields of the object are its description. */
  predicate DescribedOnce(fields: seq<Field>) {
    forall i, j :: 0 <= i < j < |fields| ==> !IsDescription(fields[i]) || !IsDescription(fields[j])
  }

  lemma {:induction false} OnceIsFirstAndLast(fields: seq<Field>)
    requires DescribedOnce(fields)
    ensures FirstDescription(fields) == LastDescription(fields, "")
  {
    if fields != [] {
      if IsDescription(fields[0]) {
        UndescribedKeeps(fields[1..], fields[0].value);
      } else {
        OnceIsFirstAndLast(fields[1..]);
      }
    }
  }

  /**
   The transaction goes by the first description an object lists, the repair by the last;
   so they agree on an object exactly when these two are the same, and in particular
   where it lists one description at most.
   */
  lemma DescriptionsAgreeIff(objs: seq<Listed>, k: nat)
    requires k < |objs| && forall o :: o in objs ==> ListedOk(o)
    ensures |ParseEnum(Print(objs))| == |ParseDescriptions(Print(objs))| == |objs|
    ensures FirstValue(ParseEnum(Print(objs))[k]) == ParseDescriptions(Print(objs))[k]
            <==> FirstDescription(objs[k].fields) == LastDescription(objs[k].fields, "")
    ensures DescribedOnce(objs[k].fields) ==> FirstValue(ParseEnum(Print(objs))[k]) == ParseDescriptions(Print(objs))[k]
  {
    EnumInverts(objs);
    DescriptionsInvert(objs);
    MeaningsAt(objs, k);
    FirstIsKept(Parsed(objs[k].id, map[IDENTIFIER := [objs[k].id]]), objs[k].fields);
    if DescribedOnce(objs[k].fields) {
      OnceIsFirstAndLast(objs[k].fields);
    }
  }

  /** An entry that lists two descriptions, Windows' and then the product's, say: the readers go by different ones. */
  lemma DescribedTwice(o: Listed, a: Field, b: Field)
    requires ListedOk(o) && o.fields == [a, b] && IsDescription(a) && IsDescription(b)
    ensures ParseEnum(Print([o])) == [Meaning(o)] && FirstValue(Meaning(o)) == a.value
    ensures ParseDescriptions(Print([o])) == [b.value]
  {
    var none: seq<Field> := [];
    assert o.fields[1..] == [b] && [b][1..] == none;
    assert LastDescription(o.fields, "") == LastDescription([b], a.value) == LastDescription(none, b.value);
    MeaningsAt([o], 0);
    EnumInverts([o]);
    DescriptionsInvert([o]);
    FirstIsKept(Parsed(o.id, map[IDENTIFIER := [o.id]]), o.fields);
  }
}
