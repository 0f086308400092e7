/**
 The ownership manifest on the EFI partition: one claimed path per line, readable by
 a person. This module is the text: what is written, and what reading it gives back.
 */
module EspManifest {
  import opened Text
  import opened EspPath

  // ---- which names may be claimed -------------------------------------------------

  const FORBIDDEN: string := ":<>\"|?*\0\r\n\t"

  /** One component of a claimed path. */
  predicate PartOk(part: string) {
    && part != "" && part != "." && part != ".."
    && part[|part| - 1] != ' ' && part[|part| - 1] != '.'
    && !ContainsAny(part, FORBIDDEN)
  }

  function Slashed(p: string): string {
    seq(|p|, i requires 0 <= i < |p| => if p[i] == '\\' then '/' else p[i])
  }

  predicate ValidRel(rel: string) {
    forall part :: part in Split(Slashed(rel), '/') ==> PartOk(part)
  }

  /** b is a in lower case. */
  ghost predicate Lowers(a: string, b: string) {
    |a| == |b| && forall i :: 0 <= i < |a| ==> b[i] == Lower(a[i])
  }

  lemma {:induction false} SplitLowered(a: string, b: string)
    requires Lowers(a, b)
    ensures |Split(a, '/')| == |Split(b, '/')|
    ensures forall i :: 0 <= i < |Split(a, '/')| ==> Lowers(Split(a, '/')[i], Split(b, '/')[i])
  {
    if a != "" {
      SplitLowered(a[1..], b[1..]);
      PiecesLowered(a[0], Split(a[1..], '/'), b[0], Split(b[1..], '/'));
    }
  }

  lemma PiecesLowered(c: char, q: seq<string>, d: char, r: seq<string>)
    requires d == Lower(c) && |q| == |r| > 0 && forall i :: 0 <= i < |q| ==> Lowers(q[i], r[i])
    ensures var whole := if c == '/' then [""] + q else [[c] + q[0]] + q[1..];
            var low := if d == '/' then [""] + r else [[d] + r[0]] + r[1..];
            |whole| == |low| && forall i :: 0 <= i < |whole| ==> Lowers(whole[i], low[i])
  {
    assert Lowers([c] + q[0], [d] + r[0]) && Lowers("", "");
    assert c == '/' <==> d == '/';
    if c == '/' {
      assert forall i :: 0 < i <= |q| ==> ([""] + q)[i] == q[i - 1] && ([""] + r)[i] == r[i - 1];
    } else {
      assert forall i :: 0 < i < |q| ==> ([[c] + q[0]] + q[1..])[i] == q[i] && ([[d] + r[0]] + r[1..])[i] == r[i];
    }
  }

  lemma LoweredPartOk(part: string, low: string)
    requires PartOk(part) && Lowers(part, low)
    ensures PartOk(low)
  {
  }

  lemma {:induction false} FirstPieceStarts(s: string)
    ensures s != "" && s[0] == '/' ==> Split(s, '/')[0] == ""
    ensures s == "" ==> Split(s, '/')[0] == ""
  {
  }

  lemma {:induction false} LastPieceEnds(s: string)
    requires s != "" && s[|s| - 1] == '/'
    ensures var q := Split(s, '/'); q[|q| - 1] == ""
  {
    if |s| > 1 {
      LastPieceEnds(s[1..]);
      assert s[1..][|s[1..]| - 1] == '/';
    } else {
      assert s[1..] == "";
    }
  }

  /** A valid name neither starts nor ends with a separator, so normalizing only changes case and slashes. */
  lemma NormalizeValid(rel: string)
    requires ValidRel(rel)
    ensures Normalize(rel) == Unify(rel) && Normalize(rel) != "" && ValidRel(Normalize(rel))
  {
    var s, u := Slashed(rel), Unify(rel);
    assert Lowers(s, u);
    FirstPieceStarts(s);
    assert Split(s, '/')[0] in Split(s, '/');
    var q := Split(s, '/');
    assert q[|q| - 1] in q;
    if s[|s| - 1] == '/' {
      LastPieceEnds(s);
    }
    assert TrimLeftChar(u, '/') == u && TrimRightChar(u, '/') == u;
    SplitLowered(s, u);
    assert Slashed(u) == u;
    forall part | part in Split(u, '/')
      ensures PartOk(part)
    {
      var i :| 0 <= i < |Split(u, '/')| && Split(u, '/')[i] == part;
      assert q[i] in q;
      LoweredPartOk(q[i], part);
    }
  }

  // ---- which names are valid, character by character ------------------------------

  predicate IsSlash(c: char) {
    c == '/' || c == '\\'
  }

  /** No forbidden character, and where a part ends neither a blank nor a dot nor another slash. */
  predicate GoodAt(s: string, i: nat)
    requires i < |s|
  {
    && s[i] !in {':', '<', '>', '"', '|', '?', '*', '\0', '\r', '\n', '\t'}
    && (i + 1 == |s| || IsSlash(s[i + 1]) ==> s[i] != ' ' && s[i] != '.' && !IsSlash(s[i]))
  }

  ghost predicate AllGood(s: string) {
    s != "" && !IsSlash(s[0]) && forall i: nat :: i < |s| ==> GoodAt(s, i)
  }

  predicate AllPartsOk(parts: seq<string>) {
    forall part :: part in parts ==> PartOk(part)
  }

  lemma ForbiddenIff(c: char)
    ensures c in FORBIDDEN <==> c in {':', '<', '>', '"', '|', '?', '*', '\0', '\r', '\n', '\t'}
  {
    var f: string := FORBIDDEN;
    assert f[0] == ':' && f[1] == '<' && f[2] == '>' && f[3] == '"' && f[4] == '|' && f[5] == '?';
    assert f[6] == '*' && f[7] == '\0' && f[8] == '\r' && f[9] == '\n' && f[10] == '\t' && |f| == 11;
  }

  /** One more character in front of a part. */
  lemma LongerPartOk(c: char, t: string)
    ensures PartOk([c] + t) <==> c !in FORBIDDEN && if t == "" then c != ' ' && c != '.' else PartOk(t)
  {
    var part := [c] + t;
    assert part[1..] == t;
    assert forall i :: 0 <= i < |t| ==> part[i + 1] == t[i];
    assert part[0] == c;
    if t != "" {
      assert part[|part| - 1] == t[|t| - 1];
    }
  }

  lemma PartsCons(first: string, rest: seq<string>)
    ensures AllPartsOk([first] + rest) <==> PartOk(first) && AllPartsOk(rest)
  {
    assert forall part :: part in [first] + rest <==> part == first || part in rest;
  }

  lemma GoodShift(c: char, s: string, i: nat)
    requires i < |s|
    ensures GoodAt([c] + s, i + 1) <==> GoodAt(s, i)
  {
  }

  /** The first character is judged by itself and by the one after it; all others as before. */
  lemma GoodFromSecond(c: char, s: string)
    requires s != ""
    ensures (forall i: nat :: i < |s| + 1 ==> GoodAt([c] + s, i)) <==> GoodAt([c] + s, 0) && forall i: nat :: i < |s| ==> GoodAt(s, i)
  {
    var all := [c] + s;
    if forall i: nat :: i < |all| ==> GoodAt(all, i) {
      forall i: nat | i < |s|
        ensures GoodAt(s, i)
      {
        GoodShift(c, s, i);
        assert GoodAt(all, i + 1);
      }
    }
    if GoodAt(all, 0) && forall i: nat :: i < |s| ==> GoodAt(s, i) {
      forall i: nat | i < |all|
        ensures GoodAt(all, i)
      {
        if i > 0 {
          GoodShift(c, s, i - 1);
        }
      }
    }
  }

  lemma AllGoodCons(c: char, s: string)
    requires s != ""
    ensures AllGood([c] + s) <==>
              !IsSlash(c) && GoodAt([c] + s, 0) && if IsSlash(s[0]) then AllGood(s[1..]) else AllGood(s)
  {
    GoodFromSecond(c, s);
    if IsSlash(s[0]) {
      var t := s[1..];
      assert s == [s[0]] + t;
      if t != "" {
        GoodFromSecond(s[0], t);
      } else {
        assert !GoodAt([c] + s, 1);
      }
    }
  }

  lemma {:induction false} PartsAreGood(s: string)
    requires '\\' !in s
    ensures AllPartsOk(Split(s, '/')) <==> AllGood(s)
    decreases |s|, 1
  {
    var parts := Split(s, '/');
    assert parts[0] in parts;
    if s != "" && s[0] != '/' {
      var c, t := s[0], s[1..];
      var rest := Split(t, '/');
      assert s == [c] + t;
      assert parts == [[c] + rest[0]] + rest[1..];
      PartsCons([c] + rest[0], rest[1..]);
      LongerPartOk(c, rest[0]);
      PartsOfRest(s, c, t);
    }
  }

  lemma {:induction false} PartsOfRest(s: string, c: char, t: string)
    requires '\\' !in s && s == [c] + t && c != '/'
    ensures var rest := Split(t, '/');
            AllGood(s) <==> c !in FORBIDDEN && (if rest[0] == "" then c != ' ' && c != '.' else PartOk(rest[0])) && AllPartsOk(rest[1..])
    decreases |s|, 0
  {
    var rest := Split(t, '/');
    ForbiddenIff(c);
    if t == "" {
      assert rest == [""] && AllGood(s) <==> GoodAt(s, 0);
    } else {
      AllGoodCons(c, t);
      if t[0] == '/' {
        assert rest == [""] + Split(t[1..], '/');
        PartsAreGood(t[1..]);
      } else {
        PartsAreGood(t);
        assert rest[0] != "" && rest == [rest[0]] + rest[1..];
        PartsCons(rest[0], rest[1..]);
      }
    }
  }

  /** A name is valid exactly when no character is forbidden and no part is empty or ends in a blank or a dot. */
  lemma ValidRelIff(rel: string)
    ensures ValidRel(rel) <==> AllGood(rel)
  {
    var s := Slashed(rel);
    PartsAreGood(s);
    assert forall i: nat :: i < |s| ==> (GoodAt(s, i) <==> GoodAt(rel, i));
  }

  // ---- reading ----------------------------------------------------------------------

  function DropReturn(line: string): string {
    if line != "" && line[|line| - 1] == '\r' then line[..|line| - 1] else line
  }

  /** The lines a scanner yields: no line ends, and no empty line after the last line end. */
  function Lines(text: string): seq<string> {
    var pieces := Split(text, '\n');
    var kept := if pieces[|pieces| - 1] == "" then pieces[..|pieces| - 1] else pieces;
    seq(|kept|, i requires 0 <= i < |kept| => DropReturn(kept[i]))
  }

  /** The claims of a list of lines; None when the manifest cannot be trusted. */
  function ReadLines(lines: seq<string>): Option<set<string>> {
    if lines == [] then Some({})
    else
      var line := lines[0];
      var trimmed := TrimSpace(line);
      if trimmed == "" || trimmed[0] == '#' then ReadLines(lines[1..])
      else if trimmed != line || !ValidRel(line) then None
      else
        match ReadLines(lines[1..])
        case None => None
        case Some(rest) => Some({Normalize(line)} + rest)
  }

  function ReadManifest(text: string): Option<set<string>> {
    ReadLines(Lines(text))
  }

  /** Readers skip the line. */
  ghost predicate Skipped(line: string) {
    TrimSpace(line) == "" || TrimSpace(line)[0] == '#'
  }

  /** Every line is skipped, or is a valid name without blanks around it. */
  ghost predicate Trusted(lines: seq<string>) {
    forall line :: line in lines ==> Skipped(line) || (TrimSpace(line) == line && AllGood(line))
  }

  /** A manifest is trusted exactly when each line is, and then it claims exactly the names on the lines that are not skipped. */
  lemma {:induction false} ReadLinesIff(lines: seq<string>)
    ensures ReadLines(lines).Some? <==> Trusted(lines)
    ensures ReadLines(lines).Some? ==> ReadLines(lines).value == (set line | line in lines && !Skipped(line) :: Normalize(line))
  {
    if lines != [] {
      var first, rest := lines[0], lines[1..];
      ReadLinesIff(rest);
      ValidRelIff(first);
      assert forall line :: line in lines <==> line == first || line in rest;
    }
  }

  // ---- writing ------------------------------------------------------------------------

  /** A line that readers skip. */
  predicate IsComment(line: string) {
    line != "" && line[0] == '#' && OneLine(line)
  }

  /** The manifest: fixed comment lines, then the claims; the same set always gives the same text. */
  ghost function ManifestText(header: seq<string>, claims: set<string>): string {
    Render(header + Sorted(claims))
  }

  method WriteManifest(header: seq<string>, claims: set<string>) returns (text: string)
    ensures text == ManifestText(header, claims)
  {
    var sorted := SortStrings(claims);
    text := Render(header + sorted);
  }

  // ---- the round trip --------------------------------------------------------------------

  /** A claim in the one spelling the manifest stores. */
  predicate IsClaim(c: string) {
    ValidRel(c) && Normalize(c) == c
  }

  /** The claim is neither taken for a comment nor for a blank line, nor trimmed. */
  predicate Survives(c: string) {
    c != "" && TrimSpace(c) == c && c[0] != '#'
  }

  lemma LinesOfRendered(lines: seq<string>)
    requires forall l :: l in lines ==> OneLine(l)
    ensures Lines(Render(lines)) == lines
  {
    SplitRendered(lines);
    assert (lines + [""])[..|lines|] == lines;
    forall i | 0 <= i < |lines|
      ensures DropReturn(lines[i]) == lines[i]
    {
      assert lines[i] in lines;
    }
  }

  /** A line and how it ends: as on Windows, or not. */
  datatype Ended = Ended(line: string, windows: bool)

  /** Text as an editor may leave it: lines with either line end, and a last one without any. */
  function EditedText(lines: seq<Ended>, last: string): string {
    if lines == [] then last
    else lines[0].line + (if lines[0].windows then "\r" else "") + "\n" + EditedText(lines[1..], last)
  }

  function PlainLines(lines: seq<Ended>): seq<string> {
    if lines == [] then [] else [lines[0].line] + PlainLines(lines[1..])
  }

  function EndedPieces(lines: seq<Ended>): seq<string> {
    if lines == [] then [] else [lines[0].line + if lines[0].windows then "\r" else ""] + EndedPieces(lines[1..])
  }

  lemma {:induction false} PiecesOfEdited(lines: seq<Ended>, last: string)
    requires OneLine(last) && forall l :: l in lines ==> OneLine(l.line)
    ensures Split(EditedText(lines, last), '\n') == EndedPieces(lines) + [last]
  {
    if lines == [] {
      NoSeparator(last);
    } else {
      var first := lines[0].line + if lines[0].windows then "\r" else "";
      assert OneLine(lines[0].line);
      SplitFirstLine(first, EditedText(lines[1..], last));
      PiecesOfEdited(lines[1..], last);
      assert [first] + (EndedPieces(lines[1..]) + [last]) == EndedPieces(lines) + [last];
    }
  }

  lemma {:induction false} NoSeparator(s: string)
    requires forall i :: 0 <= i < |s| ==> s[i] != '\n'
    ensures Split(s, '\n') == [s]
  {
    if s != "" {
      NoSeparator(s[1..]);
      assert [s[0]] + s[1..] == s;
    }
  }

  lemma {:induction false} PiecesArePlain(lines: seq<Ended>)
    requires forall l :: l in lines ==> OneLine(l.line)
    ensures |EndedPieces(lines)| == |PlainLines(lines)|
    ensures forall i :: 0 <= i < |EndedPieces(lines)| ==> DropReturn(EndedPieces(lines)[i]) == PlainLines(lines)[i]
  {
    if lines != [] {
      assert OneLine(lines[0].line);
      assert (lines[0].line + "\r")[..|lines[0].line|] == lines[0].line;
      assert lines[0].line + "" == lines[0].line;
      PiecesArePlain(lines[1..]);
    }
  }

  lemma LinesOfPieces(text: string, pieces: seq<string>, plain: seq<string>, last: string)
    requires Split(text, '\n') == pieces + [last] && |pieces| == |plain| && DropReturn(last) == last
    requires forall i :: 0 <= i < |pieces| ==> DropReturn(pieces[i]) == plain[i]
    ensures Lines(text) == plain + if last == "" then [] else [last]
  {
    var all := pieces + [last];
    assert all[|all| - 1] == last && all[..|all| - 1] == pieces;
    if last == "" {
      assert |Lines(text)| == |plain|;
      assert plain + [] == plain;
    } else {
      assert |Lines(text)| == |plain| + 1;
      forall i | 0 <= i < |all|
        ensures Lines(text)[i] == (plain + [last])[i]
      {
        if i < |pieces| {
          assert all[i] == pieces[i];
        }
      }
    }
  }

  /** The lines of a manifest are the same however they end, and the last one need not end at all. */
  lemma LinesOfEdited(lines: seq<Ended>, last: string)
    requires OneLine(last) && forall l :: l in lines ==> OneLine(l.line)
    ensures Lines(EditedText(lines, last)) == PlainLines(lines) + if last == "" then [] else [last]
  {
    PiecesOfEdited(lines, last);
    PiecesArePlain(lines);
    LinesOfPieces(EditedText(lines, last), EndedPieces(lines), PlainLines(lines), last);
  }

  lemma {:induction false} PieceIsInside(s: string, sep: char)
    ensures forall i :: 0 <= i < |s| && s[i] != sep ==> exists part :: part in Split(s, sep) && s[i] in part
  {
    if s != "" {
      PieceIsInside(s[1..], sep);
      forall i | 0 <= i < |s| && s[i] != sep
        ensures exists part :: part in Split(s, sep) && s[i] in part
      {
        if i > 0 {
          assert s[1..][i - 1] == s[i];
          var part :| part in Split(s[1..], sep) && s[i] in part;
          var k :| 0 <= k < |Split(s[1..], sep)| && Split(s[1..], sep)[k] == part;
          if s[0] == sep {
            assert Split(s, sep)[k + 1] == part;
          } else if k > 0 {
            assert Split(s, sep)[k] == part;
          } else {
            assert Split(s, sep)[0] == [s[0]] + part;
            assert s[i] in [s[0]] + part;
          }
        } else {
          assert s[0] in Split(s, sep)[0];
        }
      }
    }
  }

  lemma ClaimIsOneLine(c: string)
    requires IsClaim(c)
    ensures OneLine(c)
  {
    NormalizeValid(c);
    var s := Slashed(c);
    PieceIsInside(s, '/');
    forall i | 0 <= i < |c|
      ensures c[i] != '\n' && c[i] != '\r'
    {
      if s[i] != '/' {
        var part :| part in Split(s, '/') && s[i] in part;
        assert PartOk(part);
        var k :| 0 <= k < |part| && part[k] == s[i];
        assert part[k] !in FORBIDDEN;
      }
    }
  }

  lemma {:induction false} HeaderIsSkipped(header: seq<string>, lines: seq<string>)
    requires forall l :: l in header ==> IsComment(l)
    ensures ReadLines(header + lines) == ReadLines(lines)
  {
    if header == [] {
      assert header + lines == lines;
    } else {
      var all := header + lines;
      assert header[0] in header && all[0] == header[0] && all[1..] == header[1..] + lines;
      CommentStaysComment(header[0]);
      HeaderIsSkipped(header[1..], lines);
    }
  }

  lemma CommentStaysComment(s: string)
    requires s != "" && s[0] == '#'
    ensures TrimSpace(s) != "" && TrimSpace(s)[0] == '#'
  {
    TrimRightKeepsFirst(s);
  }

  function Surviving(lines: seq<string>): set<string> {
    set l | l in lines && Survives(l)
  }

  /** Reading claim lines back gives the surviving ones, or nothing at all. */
  lemma {:induction false} ReadClaims(lines: seq<string>)
    requires forall l :: l in lines ==> IsClaim(l)
    ensures ReadLines(lines).Some? ==> ReadLines(lines).value == Surviving(lines)
    ensures (forall l :: l in lines ==> Survives(l)) ==> ReadLines(lines).Some?
  {
    if lines != [] {
      var first, rest := lines[0], lines[1..];
      assert first in lines && forall l :: l in rest ==> l in lines;
      ReadClaims(rest);
      assert Surviving(lines) == Surviving(rest) + if Survives(first) then {first} else {} by {
        assert forall l :: l in lines <==> l == first || l in rest;
      }
      NormalizeValid(first);
    }
  }

  /**
   The manifest read back is exactly the claims written, if and only if every claim
   survives as a line: it does not start with `#` and trimming leaves it alone.
   */
  lemma ManifestRoundTrip(header: seq<string>, claims: set<string>)
    requires forall l :: l in header ==> IsComment(l)
    requires forall c :: c in claims ==> IsClaim(c)
    ensures ReadManifest(ManifestText(header, claims)) == Some(claims) <==> forall c :: c in claims ==> Survives(c)
  {
    var sorted := Sorted(claims);
    SortedElements(claims);
    forall l | l in header + sorted
      ensures OneLine(l)
    {
      if l in sorted {
        ClaimIsOneLine(l);
      }
    }
    LinesOfRendered(header + sorted);
    HeaderIsSkipped(header, sorted);
    ReadClaims(sorted);
    if forall c :: c in claims ==> Survives(c) {
      assert Surviving(sorted) == claims;
    }
  }

  /** A claim that starts with `#` is stored as a comment and lost. */
  lemma HashClaimIsLost()
    ensures IsClaim("#a") && ReadManifest(ManifestText([], {"#a"})) != Some({"#a"})
  {
    assert Slashed("#a") == "#a";
    assert "#a"[1..] == "a" && "a"[1..] == "";
    assert ['a'] + "" == "a" && ['#'] + "a" == "#a";
    assert Split("a", '/') == [['a'] + ""];
    assert Split("#a", '/') == [['#'] + "a"];
    NormalizeValid("#a");
    ManifestRoundTrip([], {"#a"});
    assert "#a" in {"#a"} && !Survives("#a");
  }
}
