/**
 Turning Windows profile directories into Linux account names: every profile gets a
 name of its own, legal for useradd, and never the name the installing person chose.
 */
module Accounts {
  import opened Text

  /** Lower-casing, one character at a time. */
  type Folding = char -> char

  // ---- one name ------------------------------------------------------------------------

  predicate IsPlain(c: char) {
    'a' <= c <= 'z' || '0' <= c <= '9' || c == '_'
  }

  predicate IsSeparator(c: char) {
    c == '-' || c == ' ' || c == '.'
  }

  /** Lower-casing leaves the characters of Linux names alone. */
  ghost predicate Faithful(lower: Folding) {
    forall c :: 'a' <= c <= 'z' || '0' <= c <= '9' || c in {'_', '-'} ==> lower(c) == c
  }

  /** What follows the last backslash or slash. */
  function AfterLast(s: string): string {
    if s == "" then ""
    else if s[|s| - 1] == '\\' || s[|s| - 1] == '/' then ""
    else AfterLast(s[..|s| - 1]) + [s[|s| - 1]]
  }

  /** The local part of something shaped like a mail address. */
  function BeforeAt(s: string): string {
    var i := IndexOf(s, '@');
    if 0 < i < |s| then s[..i] else s
  }

  /** One more character: plain ones are kept, separators become one hyphen, never first. */
  function Push(b: string, c: char): string {
    if IsPlain(c) then b + [c]
    else if IsSeparator(c) && b != "" && b[|b| - 1] != '-' then b + "-"
    else b
  }

  function Squeeze(s: string, lower: Folding): string {
    if s == "" then "" else Push(Squeeze(s[..|s| - 1], lower), lower(s[|s| - 1]))
  }

  const HYPHEN: string := "-"
  const NOT_FIRST: string := "0123456789-"

  function TrimLeftOf(s: string, chars: string): string {
    if s != "" && s[0] in chars then TrimLeftOf(s[1..], chars) else s
  }

  function TrimHyphens(s: string): string {
    TrimRightChar(TrimLeftOf(s, HYPHEN), '-')
  }

  /** No leading digit or hyphen, at most 32 characters, no hyphen at the end. */
  function Shorten(s: string): string {
    var out := TrimLeftOf(TrimHyphens(s), NOT_FIRST);
    if |out| > 32 then TrimHyphens(out[..32]) else out
  }

  function Account(name: string): string {
    BeforeAt(AfterLast(TrimSpace(name)))
  }

  function Sanitize(name: string, lower: Folding): string {
    Shorten(Squeeze(Account(name), lower))
  }

  method SanitizeUsername(name: string, lower: Folding) returns (r: string)
    ensures r == Sanitize(name, lower)
  {
    var account := Account(name);
    var b: string := "";
    for i := 0 to |account|
      invariant b == Squeeze(account[..i], lower)
    {
      assert account[..i + 1][..i] == account[..i];
      var c := lower(account[i]);
      if IsPlain(c) {
        b := b + [c];
      } else if IsSeparator(c) {
        if |b| > 0 && b[|b| - 1] != '-' {
          b := b + "-";
        }
      }
    }
    assert account[..|account|] == account;
    var out := TrimLeftOf(TrimHyphens(b), NOT_FIRST);
    if |out| > 32 {
      out := TrimHyphens(out[..32]);
    }
    r := out;
  }

  /** Plain characters and single hyphens. */
  ghost predicate Clean(s: string) {
    && (forall i :: 0 <= i < |s| ==> 'a' <= s[i] <= 'z' || '0' <= s[i] <= '9' || s[i] in {'_', '-'})
    && (forall i, j :: 0 <= i && j == i + 1 && j < |s| && s[i] == '-' ==> s[j] != '-')
  }

  /** Plain characters and single hyphens, started by a letter or underscore, not ended by a hyphen. */
  ghost predicate Shaped(s: string) {
    Clean(s) && (s != "" ==> ('a' <= s[0] <= 'z' || s[0] == '_') && s[|s| - 1] != '-')
  }

  /** A name useradd accepts, or nothing. */
  ghost predicate Legal(s: string) {
    Shaped(s) && |s| <= 32
  }

  lemma {:induction false} SqueezedIsClean(s: string, lower: Folding)
    ensures Clean(Squeeze(s, lower))
  {
    if s != "" {
      SqueezedIsClean(s[..|s| - 1], lower);
    }
  }

  lemma {:induction false} TrimLeftOfKeeps(s: string, chars: string)
    ensures var r := TrimLeftOf(s, chars);
            && |r| <= |s| && r == s[|s| - |r|..] && (r != "" ==> r[0] !in chars)
  {
    if s != "" && s[0] in chars {
      TrimLeftOfKeeps(s[1..], chars);
    }
  }

  lemma {:induction false} TrimRightCharKeeps(s: string, c: char)
    ensures var r := TrimRightChar(s, c); r <= s && (r != "" ==> r[|r| - 1] != c)
  {
    if s != "" && s[|s| - 1] == c {
      TrimRightCharKeeps(s[..|s| - 1], c);
    }
  }

  lemma CleanPart(s: string, i: nat, j: nat)
    requires Clean(s) && i <= j <= |s|
    ensures Clean(s[i..j])
  {
  }

  lemma TrimLeftHyphens(s: string)
    requires Clean(s)
    ensures var l := TrimLeftOf(s, HYPHEN);
            && Clean(l) && |l| <= |s| && (l != "" ==> l[0] != '-')
            && (s != "" && s[0] != '-' ==> l == s)
  {
    var l := TrimLeftOf(s, HYPHEN);
    TrimLeftOfKeeps(s, HYPHEN);
    CleanPart(s, |s| - |l|, |s|);
    assert l == s[|s| - |l|..|s|];
    assert l != "" ==> HYPHEN[0] == '-' && l[0] !in HYPHEN;
  }

  lemma TrimRightHyphens(l: string)
    requires Clean(l)
    ensures var r := TrimRightChar(l, '-'); Clean(r) && r <= l && (r != "" ==> r[|r| - 1] != '-')
  {
    var r := TrimRightChar(l, '-');
    TrimRightCharKeeps(l, '-');
    CleanPart(l, 0, |r|);
    assert r == l[0..|r|];
  }

  lemma TrimHyphensKeeps(s: string)
    requires Clean(s)
    ensures var r := TrimHyphens(s);
            && Clean(r) && |r| <= |s| && (r != "" ==> r[0] != '-' && r[|r| - 1] != '-')
            && (s != "" && s[0] != '-' ==> r <= s)
  {
    TrimLeftHyphens(s);
    TrimRightHyphens(TrimLeftOf(s, HYPHEN));
  }

  lemma TrimmedStart(t: string)
    requires Clean(t) && (t != "" ==> t[|t| - 1] != '-')
    ensures Shaped(TrimLeftOf(t, NOT_FIRST))
  {
    var out := TrimLeftOf(t, NOT_FIRST);
    TrimLeftOfKeeps(t, NOT_FIRST);
    var from := |t| - |out|;
    CleanPart(t, from, |t|);
    assert out == t[from..|t|];
    StartsWell(out);
  }

  lemma CutIsShaped(out: string)
    requires Shaped(out) && |out| > 32
    ensures Legal(TrimHyphens(out[..32]))
  {
    var cut := out[..32];
    CleanPart(out, 0, 32);
    assert cut == out[0..32];
    assert cut[0] == out[0];
    TrimHyphensKeeps(cut);
  }

  lemma ShortenedIsLegal(b: string)
    requires Clean(b)
    ensures Legal(Shorten(b))
  {
    TrimHyphensKeeps(b);
    TrimmedStart(TrimHyphens(b));
    var out := TrimLeftOf(TrimHyphens(b), NOT_FIRST);
    if |out| > 32 {
      CutIsShaped(out);
    }
  }

  /** Whatever the Windows name, the result is legal for useradd, or empty. */
  lemma SanitizedIsLegal(name: string, lower: Folding)
    ensures Legal(Sanitize(name, lower))
  {
    SqueezedIsClean(Account(name), lower);
    ShortenedIsLegal(Squeeze(Account(name), lower));
  }

  lemma StartsWell(s: string)
    requires Clean(s) && (s != "" ==> s[0] !in NOT_FIRST)
    ensures s != "" ==> 'a' <= s[0] <= 'z' || s[0] == '_'
  {
  }

  /** The last character of a clean string is kept as it is. */
  lemma PushKeeps(front: string, c: char, lower: Folding)
    requires Clean(front + [c]) && Faithful(lower) && (front + [c])[0] != '-'
    ensures Push(front, lower(c)) == front + [c]
  {
    var s := front + [c];
    var j := |front|;
    assert s[j] == c;
    if c == '-' {
      var i := j - 1;
      assert s[i] == front[i];
    }
  }

  lemma {:induction false} SqueezeClean(s: string, lower: Folding)
    requires Clean(s) && Faithful(lower) && (s != "" ==> s[0] != '-')
    ensures Squeeze(s, lower) == s
  {
    if s != "" {
      var front, c := s[..|s| - 1], s[|s| - 1];
      assert s == front + [c];
      CleanPart(s, 0, |s| - 1);
      assert s[0..|s| - 1] == front;
      SqueezeClean(front, lower);
      PushKeeps(front, c, lower);
    }
  }

  lemma {:induction false} AfterLastClean(s: string)
    requires forall i :: 0 <= i < |s| ==> s[i] != '\\' && s[i] != '/'
    ensures AfterLast(s) == s
  {
    if s != "" {
      AfterLastClean(s[..|s| - 1]);
      assert s == s[..|s| - 1] + [s[|s| - 1]];
    }
  }

  /** Sanitizing a sanitized name changes nothing. */
  lemma SanitizeIdempotent(name: string, lower: Folding)
    requires Faithful(lower)
    ensures Sanitize(Sanitize(name, lower), lower) == Sanitize(name, lower)
  {
    SanitizedIsLegal(name, lower);
    var s := Sanitize(name, lower);
    LegalIsKept(s, lower);
  }

  lemma LegalStart(s: string)
    requires Legal(s) && s != ""
    ensures !IsSpace(s[0]) && !IsSpace(s[|s| - 1]) && s[0] !in HYPHEN && s[0] !in NOT_FIRST && s[|s| - 1] != '-'
    ensures '\\' !in s && '/' !in s && '@' !in s
  {
    assert s[|s| - 1] == s[|s| - 1] && (s[0] == '_' || 'a' <= s[0] <= 'z');
  }

  lemma LegalAccount(s: string)
    requires Legal(s)
    ensures Account(s) == s
  {
    if s != "" {
      LegalStart(s);
      TrimmedIff(s);
    }
    AfterLastClean(s);
  }

  lemma LegalIsKept(s: string, lower: Folding)
    requires Legal(s) && Faithful(lower)
    ensures Sanitize(s, lower) == s
  {
    LegalAccount(s);
    SqueezeClean(s, lower);
    if s != "" {
      LegalStart(s);
      assert TrimHyphens(s) == s;
    }
  }

  // ---- what becomes of a name ---------------------------------------------------------

  /** The characters that Linux names keep, in order. */
  function Plains(s: string): string {
    if s == "" then "" else Plains(s[..|s| - 1]) + if IsPlain(s[|s| - 1]) then [s[|s| - 1]] else ""
  }

  /** Each character lower-cased. */
  function Lowered(s: string, lower: Folding): string {
    seq(|s|, i requires 0 <= i < |s| => lower(s[i]))
  }

  lemma LoweredFront(s: string, lower: Folding)
    requires s != ""
    ensures Lowered(s, lower) == Lowered(s[..|s| - 1], lower) + [lower(s[|s| - 1])]
  {
  }

  lemma PlainsOfMore(s: string, c: char)
    ensures Plains(s + [c]) == Plains(s) + if IsPlain(c) then [c] else ""
  {
    assert (s + [c])[..|s|] == s;
  }

  /** No letter, digit or underscore is lost, invented or moved. */
  lemma {:induction false} SqueezeKeepsPlain(s: string, lower: Folding)
    ensures Plains(Squeeze(s, lower)) == Plains(Lowered(s, lower))
  {
    if s != "" {
      var front, c := s[..|s| - 1], lower(s[|s| - 1]);
      SqueezeKeepsPlain(front, lower);
      LoweredFront(s, lower);
      PlainsOfMore(Lowered(front, lower), c);
      PlainsOfMore(Squeeze(front, lower), c);
      PlainsOfMore(Squeeze(front, lower), '-');
    }
  }

  ghost predicate AllPlain(s: string, lower: Folding) {
    forall i :: 0 <= i < |s| ==> IsPlain(lower(s[i]))
  }

  ghost predicate AllSeparators(s: string, lower: Folding) {
    forall i :: 0 <= i < |s| ==> lower(s[i]) in {'-', ' ', '.'}
  }

  lemma {:induction false} SqueezeWord(s: string, w: string, lower: Folding)
    requires AllPlain(w, lower)
    ensures Squeeze(s + w, lower) == Squeeze(s, lower) + Lowered(w, lower)
    decreases |w|
  {
    if w == "" {
      assert s + w == s;
    } else {
      var front := w[..|w| - 1];
      assert (s + w)[..|s + w| - 1] == s + front && (s + w)[|s + w| - 1] == w[|w| - 1];
      SqueezeWord(s, front, lower);
      LoweredFront(w, lower);
    }
  }

  lemma {:induction false} SqueezeGap(s: string, g: string, lower: Folding)
    requires AllSeparators(g, lower) && g != "" && Squeeze(s, lower) != ""
    ensures Squeeze(s + g, lower) == (if Squeeze(s, lower)[|Squeeze(s, lower)| - 1] == '-' then Squeeze(s, lower) else Squeeze(s, lower) + "-")
    decreases |g|
  {
    var front := g[..|g| - 1];
    assert (s + g)[..|s + g| - 1] == s + front && (s + g)[|s + g| - 1] == g[|g| - 1];
    if front == "" {
      assert s + front == s;
    } else {
      SqueezeGap(s, front, lower);
    }
  }

  /** Between two words any run of blanks, dots and hyphens becomes one hyphen. */
  lemma SqueezeJoins(s: string, v: string, g: string, w: string, lower: Folding)
    requires AllPlain(v, lower) && v != "" && AllSeparators(g, lower) && g != "" && AllPlain(w, lower)
    ensures Squeeze(s + v + g + w, lower) == Squeeze(s, lower) + Lowered(v, lower) + "-" + Lowered(w, lower)
  {
    SqueezeWord(s, v, lower);
    var t := Squeeze(s + v, lower);
    assert t[|t| - 1] == lower(v[|v| - 1]) && !IsSeparator(t[|t| - 1]);
    SqueezeGap(s + v, g, lower);
    SqueezeWord(s + v + g, w, lower);
  }

  /** A character that may start a Linux name. */
  predicate IsLetter(c: char) {
    'a' <= c <= 'z' || c == '_'
  }

  lemma {:induction false} SqueezeHas(s: string, lower: Folding, c: char)
    requires IsPlain(c)
    ensures c in Squeeze(s, lower) <==> exists i :: 0 <= i < |s| && lower(s[i]) == c
  {
    if s != "" {
      var front := s[..|s| - 1];
      SqueezeHas(front, lower, c);
      assert forall i :: 0 <= i < |front| ==> front[i] == s[i];
    }
  }

  lemma {:induction false} TrimmedAway(s: string, chars: string)
    ensures TrimLeftOf(s, chars) == "" <==> forall i :: 0 <= i < |s| ==> s[i] in chars
  {
    if s != "" && s[0] in chars {
      TrimmedAway(s[1..], chars);
      assert forall i :: 0 < i < |s| ==> s[i] == s[1..][i - 1];
    }
  }

  lemma {:induction false} TrimRightLosesNoLetter(s: string, c: char)
    requires IsLetter(c)
    ensures c in TrimRightChar(s, '-') <==> c in s
  {
    if s != "" && s[|s| - 1] == '-' {
      TrimRightLosesNoLetter(s[..|s| - 1], c);
      assert s == s[..|s| - 1] + [s[|s| - 1]];
    }
  }

  lemma {:induction false} TrimLeftLosesNoLetter(s: string, chars: string, c: char)
    requires c !in chars
    ensures c in TrimLeftOf(s, chars) <==> c in s
  {
    if s != "" && s[0] in chars {
      TrimLeftLosesNoLetter(s[1..], chars, c);
      assert s == [s[0]] + s[1..];
    }
  }

  lemma LettersAreNotTrimmed(b: string, c: char)
    requires IsLetter(c)
    ensures c in TrimLeftOf(TrimHyphens(b), NOT_FIRST) <==> c in b
  {
    assert c !in HYPHEN && c !in NOT_FIRST;
    TrimLeftLosesNoLetter(b, HYPHEN, c);
    TrimRightLosesNoLetter(TrimLeftOf(b, HYPHEN), c);
    TrimLeftLosesNoLetter(TrimHyphens(b), NOT_FIRST, c);
  }

  lemma ShortenEmptyIff(b: string)
    requires Clean(b)
    ensures Shorten(b) == "" <==> forall c :: c in b ==> !IsLetter(c)
  {
    var out := TrimLeftOf(TrimHyphens(b), NOT_FIRST);
    TrimHyphensKeeps(b);
    TrimmedStart(TrimHyphens(b));
    if out != "" {
      LettersAreNotTrimmed(b, out[0]);
      assert out[0] in out;
      if |out| > 32 {
        var cut := out[..32];
        LettersAreNotTrimmed(cut, out[0]);
        CleanPart(out, 0, 32);
        assert cut == out[0..32] && cut[0] == out[0];
        TrimLeftHyphens(cut);
        TrimRightLosesNoLetter(TrimLeftOf(cut, HYPHEN), out[0]);
      }
    }
    forall c | c in b && IsLetter(c)
      ensures out != ""
    {
      LettersAreNotTrimmed(b, c);
    }
  }

  /** Nothing usable survives exactly when the account part has no letter and no underscore. */
  lemma SanitizeEmptyIff(name: string, lower: Folding)
    ensures Sanitize(name, lower) == "" <==>
            forall i :: 0 <= i < |Account(name)| ==> !IsLetter(lower(Account(name)[i]))
  {
    var account := Account(name);
    SqueezedIsClean(account, lower);
    ShortenEmptyIff(Squeeze(account, lower));
    forall c | IsLetter(c)
      ensures c in Squeeze(account, lower) <==> exists i :: 0 <= i < |account| && lower(account[i]) == c
    {
      SqueezeHas(account, lower, c);
    }
  }

  /** Of DOMAIN\user only the user counts. */
  lemma DomainIsDropped(domain: string, slash: char, user: string)
    requires slash in {'\\', '/'} && '\\' !in user && '/' !in user
    requires user != "" && !IsSpace(user[|user| - 1]) && (domain != "" ==> !IsSpace(domain[0]))
    ensures Account(domain + [slash] + user) == BeforeAt(user)
  {
    var name := domain + [slash] + user;
    TrimmedIff(name);
    AfterLastSlash(domain + [slash], user);
  }

  lemma {:induction false} AfterLastSlash(front: string, user: string)
    requires front != "" && front[|front| - 1] in {'\\', '/'} && '\\' !in user && '/' !in user
    ensures AfterLast(front + user) == user
    decreases |user|
  {
    if user == "" {
      assert front + user == front;
    } else {
      var less := user[..|user| - 1];
      assert (front + user)[..|front + user| - 1] == front + less;
      AfterLastSlash(front, less);
      assert user == less + [user[|user| - 1]];
    }
  }

  /** Of a mail address only what stands before the sign counts, unless nothing does. */
  lemma MailIsCut(local: string, rest: string)
    requires '@' !in local
    ensures BeforeAt(local + "@" + rest) == if local == "" then "@" + rest else local
  {
    FirstAt(local, rest);
    assert (local + "@" + rest)[..|local|] == local;
  }

  lemma {:induction false} FirstAt(local: string, rest: string)
    requires '@' !in local
    ensures IndexOf(local + "@" + rest, '@') == |local|
  {
    if local != "" {
      assert (local + "@" + rest)[1..] == local[1..] + "@" + rest;
      FirstAt(local[1..], rest);
    }
  }

  // ---- fallback names -------------------------------------------------------------------

  function Decimal(n: nat): string {
    (if n < 10 then "" else Decimal(n / 10)) + [('0' as int + n % 10) as char]
  }

  lemma {:induction false} DecimalInjective(m: nat, n: nat)
    requires Decimal(m) == Decimal(n)
    ensures m == n
  {
    var a, b := Decimal(m), Decimal(n);
    assert a[|a| - 1] == b[|b| - 1];
    assert m % 10 == n % 10;
    assert a[..|a| - 1] == b[..|b| - 1];
    assert |Decimal(m / 10)| > 0 && |Decimal(n / 10)| > 0;
    if m >= 10 && n >= 10 {
      assert a[..|a| - 1] == Decimal(m / 10) && b[..|b| - 1] == Decimal(n / 10);
      DecimalInjective(m / 10, n / 10);
    }
  }

  function Fallback(n: nat): string {
    "winuser" + Decimal(n)
  }

  lemma FallbackInjective(m: nat, n: nat)
    requires Fallback(m) == Fallback(n)
    ensures m == n
  {
    assert Fallback(m)[7..] == Decimal(m) && Fallback(n)[7..] == Decimal(n);
    DecimalInjective(m, n);
  }

  /** The taken names that are fallback names from n on; the search passes each at most once. */
  ghost function Ahead(seen: set<string>, n: nat): set<string> {
    set s | s in seen && exists k :: k >= n && s == Fallback(k)
  }

  lemma AheadShrinks(seen: set<string>, n: nat)
    requires Fallback(n) in seen
    ensures Ahead(seen, n + 1) < Ahead(seen, n)
  {
    assert Fallback(n) in Ahead(seen, n);
    if Fallback(n) in Ahead(seen, n + 1) {
      var k :| k >= n + 1 && Fallback(n) == Fallback(k);
      FallbackInjective(n, k);
    }
  }

  /** The first free fallback name from n on; the search ends because only finitely many names are taken. */
  method NextFallback(seen: set<string>, n: nat) returns (name: string, next: nat)
    ensures name !in seen && n < next && name == Fallback(next - 1)
    ensures forall k :: n <= k < next - 1 ==> Fallback(k) in seen
  {
    next := n;
    while Fallback(next) in seen
      invariant n <= next && forall k :: n <= k < next ==> Fallback(k) in seen
      decreases Ahead(seen, next)
    {
      AheadShrinks(seen, next);
      next := next + 1;
    }
    name, next := Fallback(next), next + 1;
  }

  // ---- all profiles ------------------------------------------------------------------------

  /** What is found under a name in the directory of user profiles. */
  datatype Found = Found(isDir: bool, hasRegistry: bool)

  datatype Mapping = Mapping(windowsDir: string, linuxUser: string)

  /** The users directory, the chosen account and its profile, and the built-in profile names. */
  datatype Setting = Setting(
    users: map<string, Found>, primary: string, primaryDir: string, system: set<string>, lower: Folding)

  function LowerAll(s: string, lower: Folding): string {
    if s == "" then "" else [lower(s[0])] + LowerAll(s[1..], lower)
  }

  /** A profile that someone else logs in to. */
  predicate Person(w: Setting, name: string) {
    && name in w.users && w.users[name].isDir && LowerAll(name, w.lower) !in w.system
    && !(w.primaryDir != "" && LowerAll(name, w.lower) == LowerAll(w.primaryDir, w.lower))
    && w.users[name].hasRegistry
  }

  lemma {:induction false} LowerAllIs(s: string, lower: Folding)
    ensures LowerAll(s, lower) == Lowered(s, lower)
  {
    if s != "" {
      LowerAllIs(s[1..], lower);
    }
  }

  /** The profile directory of somebody who has logged in: not a built-in one, and not the chosen account's own. */
  ghost predicate LogsIn(w: Setting, name: string) {
    && name in w.users && w.users[name] == Found(true, true)
    && Lowered(name, w.lower) !in w.system
    && (w.primaryDir == "" || Lowered(name, w.lower) != Lowered(w.primaryDir, w.lower))
  }

  lemma PersonIff(w: Setting, name: string)
    ensures Person(w, name) <==> LogsIn(w, name)
  {
    LowerAllIs(name, w.lower);
    LowerAllIs(w.primaryDir, w.lower);
  }

  /** Somebody whose name does not come out as the chosen account. */
  ghost predicate Eligible(w: Setting, name: string) {
    LogsIn(w, name) && Sanitize(name, w.lower) != w.primary
  }

  /** Somebody the installer promises an account: anyone whose name is not the chosen account's. */
  ghost predicate Promised(w: Setting, name: string) {
    LogsIn(w, name) && (Sanitize(name, w.lower) == "" || Sanitize(name, w.lower) != w.primary)
  }

  /** Someone whose name has no Latin letter is promised an account and gets none where no account was chosen. */
  lemma EmptyNameIsSkipped()
    ensures var w := Setting(map["\U{7530}" := Found(true, true)], "", "", {}, c => c);
            Promised(w, "\U{7530}") && !Eligible(w, "\U{7530}")
  {
    var name: string := "\U{7530}";
    var lower: Folding := c => c;
    TrimmedIff(name);
    assert name[..0] == "" && AfterLast("") == "" && AfterLast(name) == name;
    assert BeforeAt(name) == name;
    assert Squeeze(name[..0], lower) == "";
    assert Squeeze(name, lower) == "";
  }

  /** No account is used twice, and none is empty or the chosen one. */
  ghost predicate Injective(out: seq<Mapping>, primary: string) {
    && (forall i :: 0 <= i < |out| ==> out[i].linuxUser != "" && out[i].linuxUser != primary)
    && (forall i, j :: 0 <= i < j < |out| ==>
          out[i].linuxUser != out[j].linuxUser && out[i].windowsDir != out[j].windowsDir)
  }

  /** The account is the sanitized name or a fallback. */
  ghost predicate Named(m: Mapping, lower: Folding) {
    m.linuxUser == Sanitize(m.windowsDir, lower) || exists n :: m.linuxUser == Fallback(n)
  }

  /** Nobody before this one in the order of directories has the account that the name asks for. */
  ghost predicate NameIsFree(out: seq<Mapping>, m: Mapping, lower: Folding) {
    && Sanitize(m.windowsDir, lower) != ""
    && forall o :: o in out && Less(o.windowsDir, m.windowsDir) ==> o.linuxUser != Sanitize(m.windowsDir, lower)
  }

  /** Whoever comes first under a name gets it; only others are given a numbered one. */
  ghost predicate FirstServed(out: seq<Mapping>, lower: Folding) {
    forall m :: m in out ==> (NameIsFree(out, m, lower) <==> m.linuxUser == Sanitize(m.windowsDir, lower))
  }

  ghost predicate Has(out: seq<Mapping>, dir: string) {
    exists m :: m in out && m.windowsDir == dir
  }

  function Users(out: seq<Mapping>): set<string> {
    set m | m in out :: m.linuxUser
  }

  method NameFor(name: string, lower: Folding, seen: set<string>, n: nat) returns (linux: string, next: nat)
    ensures linux !in seen && linux != "" && Named(Mapping(name, linux), lower)
    ensures Sanitize(name, lower) != "" && Sanitize(name, lower) !in seen ==> linux == Sanitize(name, lower)
  {
    linux := SanitizeUsername(name, lower);
    next := n;
    if linux == "" || linux in seen {
      linux, next := NextFallback(seen, n);
      assert linux[0] == 'w';
    }
  }

  /** The accounts given so far: all different, each to the first that asked for it, and all of them taken. */
  ghost predicate Given(w: Setting, out: seq<Mapping>, seen: set<string>) {
    && Injective(out, w.primary) && FirstServed(out, w.lower) && (forall m :: m in out ==> Named(m, w.lower))
    && seen == (if w.primary != "" then {w.primary} else {}) + Users(out)
  }

  /** One more account, for a profile that comes after all the others. */
  method GiveAccount(w: Setting, name: string, out: seq<Mapping>, seen: set<string>, n: nat)
    returns (more: seq<Mapping>, taken: set<string>, next: nat)
    requires Given(w, out, seen) && Eligible(w, name)
    requires forall o :: o in out ==> Less(o.windowsDir, name) && !Less(name, o.windowsDir)
    ensures Given(w, more, taken)
    ensures forall dir :: Has(more, dir) <==> Has(out, dir) || dir == name
  {
    var linux;
    linux, next := NameFor(name, w.lower, seen, n);
    LessIrreflexive(name);
    assert !Has(out, name);
    AddMapping(out, Mapping(name, linux), w.primary);
    AddLast(out, Mapping(name, linux), w.lower);
    more := out + [Mapping(name, linux)];
    taken := seen + {linux};
  }

  lemma EarlierFirst(out: seq<Mapping>, names: seq<string>, k: nat)
    requires k < |names| && forall i, j :: 0 <= i < j < |names| ==> Less(names[i], names[j])
    requires forall dir :: Has(out, dir) ==> dir in names[..k]
    ensures forall o :: o in out ==> Less(o.windowsDir, names[k]) && !Less(names[k], o.windowsDir)
  {
    forall o | o in out
      ensures Less(o.windowsDir, names[k]) && !Less(names[k], o.windowsDir)
    {
      assert Has(out, o.windowsDir);
      var i :| 0 <= i < k && names[i] == o.windowsDir;
      OnlyOneWay(o.windowsDir, names[k]);
    }
  }

  /** Accounts for the profiles in the order of their directories. */
  method Collect(w: Setting, names: seq<string>) returns (out: seq<Mapping>)
    requires forall i, j :: 0 <= i < j < |names| ==> Less(names[i], names[j])
    ensures Injective(out, w.primary) && FirstServed(out, w.lower)
    ensures forall m :: m in out ==> Named(m, w.lower)
    ensures forall dir :: Has(out, dir) <==> dir in names && Eligible(w, dir)
  {
    var seen := if w.primary != "" then {w.primary} else {};
    out := [];
    var n := 1;
    for k := 0 to |names|
      invariant Given(w, out, seen)
      invariant forall dir :: Has(out, dir) <==> dir in names[..k] && Eligible(w, dir)
    {
      assert names[..k + 1] == names[..k] + [names[k]];
      var name := names[k];
      var account := SanitizeUsername(name, w.lower);
      PersonIff(w, name);
      if Person(w, name) && account != w.primary {
        EarlierFirst(out, names, k);
        out, seen, n := GiveAccount(w, name, out, seen, n);
      }
    }
    assert names[..|names|] == names;
  }

  lemma OnlyOneWay(a: string, b: string)
    requires Less(a, b)
    ensures !Less(b, a) && a != b
  {
    LessIrreflexive(a);
    if Less(b, a) {
      LessTransitive(a, b, a);
    }
  }

  /** Whoever comes later does not matter. */
  lemma LaterIsIgnored(out: seq<Mapping>, last: Mapping, m: Mapping, lower: Folding)
    requires !Less(last.windowsDir, m.windowsDir)
    ensures NameIsFree(out + [last], m, lower) <==> NameIsFree(out, m, lower)
  {
    assert forall x :: x in out + [last] <==> x in out || x == last;
  }

  lemma FreeIff(out: seq<Mapping>, m: Mapping, lower: Folding)
    requires forall o :: o in out ==> Less(o.windowsDir, m.windowsDir)
    ensures NameIsFree(out, m, lower) <==> Sanitize(m.windowsDir, lower) != "" && Sanitize(m.windowsDir, lower) !in Users(out)
  {
    if Sanitize(m.windowsDir, lower) in Users(out) {
      var o :| o in out && o.linuxUser == Sanitize(m.windowsDir, lower);
      assert Less(o.windowsDir, m.windowsDir);
    }
    assert forall x :: x in out ==> x.linuxUser in Users(out);
  }

  /** The last in the order of directories takes nothing away from those before. */
  lemma AddLast(out: seq<Mapping>, m: Mapping, lower: Folding)
    requires FirstServed(out, lower) && forall o :: o in out ==> Less(o.windowsDir, m.windowsDir) && !Less(m.windowsDir, o.windowsDir)
    requires Sanitize(m.windowsDir, lower) != "" && Sanitize(m.windowsDir, lower) !in Users(out) ==> m.linuxUser == Sanitize(m.windowsDir, lower)
    requires m.linuxUser != "" && m.linuxUser !in Users(out)
    ensures FirstServed(out + [m], lower)
  {
    LessIrreflexive(m.windowsDir);
    LaterIsIgnored(out, m, m, lower);
    FreeIff(out, m, lower);
    forall o | o in out
      ensures NameIsFree(out + [m], o, lower) <==> o.linuxUser == Sanitize(o.windowsDir, lower)
    {
      LaterIsIgnored(out, m, o, lower);
    }
    ServedGlue(out, m, lower);
  }

  lemma ServedGlue(out: seq<Mapping>, m: Mapping, lower: Folding)
    requires forall o :: o in out ==> (NameIsFree(out + [m], o, lower) <==> o.linuxUser == Sanitize(o.windowsDir, lower))
    requires NameIsFree(out + [m], m, lower) <==> m.linuxUser == Sanitize(m.windowsDir, lower)
    ensures FirstServed(out + [m], lower)
  {
    assert forall x :: x in out + [m] <==> x in out || x == m;
  }

  lemma SameElementsServed(out: seq<Mapping>, r: seq<Mapping>, lower: Folding)
    requires FirstServed(out, lower) && forall m :: m in r <==> m in out
    ensures FirstServed(r, lower)
  {
    forall m | m in r
      ensures NameIsFree(r, m, lower) <==> NameIsFree(out, m, lower)
    {
    }
  }

  lemma AddMapping(out: seq<Mapping>, m: Mapping, primary: string)
    requires Injective(out, primary) && m.linuxUser !in Users(out) && !Has(out, m.windowsDir)
    requires m.linuxUser != "" && m.linuxUser != primary
    ensures Injective(out + [m], primary) && Users(out + [m]) == Users(out) + {m.linuxUser}
    ensures forall dir :: Has(out + [m], dir) <==> Has(out, dir) || dir == m.windowsDir
  {
  }

  /** r lists one mapping of out for each account, in order. */
  ghost predicate InOrder(out: seq<Mapping>, r: seq<Mapping>) {
    var accounts := Sorted(Users(out));
    |r| == |accounts| && forall i :: 0 <= i < |r| ==> r[i] in out && r[i].linuxUser == accounts[i]
  }

  lemma SortedKeepsInjective(out: seq<Mapping>, r: seq<Mapping>, primary: string)
    requires Injective(out, primary) && InOrder(out, r)
    ensures Injective(r, primary)
    ensures forall i, j :: 0 <= i < j < |r| ==> Less(r[i].linuxUser, r[j].linuxUser)
  {
    forall i, j | 0 <= i < j < |r|
      ensures Less(r[i].linuxUser, r[j].linuxUser) && r[i].linuxUser != r[j].linuxUser && r[i].windowsDir != r[j].windowsDir
    {
      SortedPlaces(Users(out), i, j);
      LessIrreflexive(r[i].linuxUser);
      var p :| 0 <= p < |out| && out[p] == r[i];
      var q :| 0 <= q < |out| && out[q] == r[j];
      assert p < q || q < p;
    }
  }

  lemma NothingLost(out: seq<Mapping>, r: seq<Mapping>)
    requires InOrder(out, r) && forall i, j :: 0 <= i < j < |out| ==> out[i].linuxUser != out[j].linuxUser
    ensures forall m :: m in r <==> m in out
  {
    SortedElements(Users(out));
    forall m | m in out
      ensures m in r
    {
      assert m.linuxUser in Users(out);
      var k :| 0 <= k < |r| && r[k].linuxUser == m.linuxUser;
      var p :| 0 <= p < |out| && out[p] == r[k];
      var q :| 0 <= q < |out| && out[q] == m;
      assert p == q;
    }
  }

  /** The mappings in the order of their accounts. */
  method SortByAccount(out: seq<Mapping>, ghost primary: string) returns (r: seq<Mapping>)
    requires Injective(out, primary)
    ensures Injective(r, primary) && forall m :: m in r <==> m in out
    ensures forall i, j :: 0 <= i < j < |r| ==> Less(r[i].linuxUser, r[j].linuxUser)
  {
    var accounts := SortStrings(Users(out));
    SortedElements(Users(out));
    r := [];
    for k := 0 to |accounts|
      invariant |r| == k && forall i :: 0 <= i < k ==> r[i] in out && r[i].linuxUser == accounts[i]
    {
      assert accounts[k] in Users(out);
      var m :| m in out && m.linuxUser == accounts[k];
      r := r + [m];
    }
    SortedKeepsInjective(out, r, primary);
    NothingLost(out, r);
  }

  /**
   Every eligible profile gets exactly one account and nobody else does: the name it asks
   for if nobody before it in the order of directories has that. Everyone who
   is promised one gets it if and only if an account was chosen at all, or no name
   comes out empty.
   */
  method ListProfiles(w: Setting) returns (out: seq<Mapping>)
    ensures Injective(out, w.primary)
    ensures forall i, j :: 0 <= i < j < |out| ==> Less(out[i].linuxUser, out[j].linuxUser)
    ensures forall m :: m in out ==> Named(m, w.lower)
    ensures FirstServed(out, w.lower)
    ensures forall dir :: Has(out, dir) <==> Eligible(w, dir)
    ensures (forall dir :: Promised(w, dir) ==> Has(out, dir))
            <==> w.primary != "" || forall dir :: LogsIn(w, dir) ==> Sanitize(dir, w.lower) != ""
  {
    var names := SortStrings(w.users.Keys);
    SortedElements(w.users.Keys);
    forall i, j | 0 <= i < j < |names|
      ensures Less(names[i], names[j])
    {
      SortedPlaces(w.users.Keys, i, j);
    }
    var collected := Collect(w, names);
    out := SortByAccount(collected, w.primary);
    SameElementsServed(collected, out, w.lower);
    assert forall dir :: Has(out, dir) <==> Has(collected, dir);
  }
}
