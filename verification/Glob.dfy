/**
 Kernel-alias patterns: `*`, `?`, `[...]`, `[!...]` and literals, matched by a scan
 that remembers only the last star, against the recursive meaning of a pattern.
 */
module Glob {
  import opened Text

  // ---- the meaning of a pattern -----------------------------------------------

  /** One element of a character class. */
  datatype Item = One(c: char) | Range(low: char, high: char)

  predicate InItem(item: Item, c: char) {
    match item
    case One(d) => c == d
    case Range(low, high) => low <= c <= high
  }

  predicate InItems(items: seq<Item>, c: char) {
    exists k :: 0 <= k < |items| && InItem(items[k], c)
  }

  datatype Class = Class(items: seq<Item>, negate: bool, width: nat)

  predicate InClass(cls: Class, c: char) {
    InItems(cls.items, c) != cls.negate
  }

  function Prefixed(seen: seq<Item>, rest: Option<(seq<Item>, nat)>): Option<(seq<Item>, nat)> {
    if rest.None? then None else Some((seen + rest.value.0, rest.value.1))
  }

  /** The items of a class body from index i to its closing bracket, and the index after that bracket. */
  function Items(p: string, i: nat, first: bool): (r: Option<(seq<Item>, nat)>)
    ensures r.Some? ==> i < r.value.1 <= |p|
    decreases |p| - i
  {
    if i >= |p| then None
    else if p[i] == ']' && !first then Some(([], i + 1))
    else
      var ranged := i + 2 < |p| && p[i + 1] == '-' && p[i + 2] != ']';
      var item := if ranged then Range(p[i], p[i + 2]) else One(p[i]);
      Prefixed([item], Items(p, if ranged then i + 3 else i + 1, false))
  }

  predicate Negated(p: string, at: nat) {
    at + 1 < |p| && (p[at + 1] == '!' || p[at + 1] == '^')
  }

  /** The class whose bracket opens at this index; None when it is never closed. */
  function ParseClass(p: string, at: nat): (r: Option<Class>)
    requires at < |p| && p[at] == '['
    ensures r.Some? ==> 1 < r.value.width <= |p| - at
  {
    match Items(p, if Negated(p, at) then at + 2 else at + 1, true)
    case None => None
    case Some(body) => Some(Class(body.0, Negated(p, at), body.1 - at))
  }

  /** What one pattern element other than a star accepts. */
  datatype Element = Any | Literal(c: char) | OneOf(cls: Class)

  function ElementAt(p: string, i: nat): (e: Element)
    requires i < |p| && p[i] != '*'
    ensures Width(e) <= |p| - i
  {
    if p[i] == '?' then Any
    else if p[i] == '[' && ParseClass(p, i).Some? then OneOf(ParseClass(p, i).value)
    else Literal(p[i])
  }

  /** How many pattern characters an element takes; the text has no say in it. */
  function Width(e: Element): nat {
    if e.OneOf? && e.cls.width > 0 then e.cls.width else 1
  }

  predicate Accepts(e: Element, c: char) {
    match e
    case Any => true
    case Literal(d) => c == d
    case OneOf(cls) => InClass(cls, c)
  }

  /**
   The pattern from index i matches the text from index j: a star stands for any
   stretch of text, every other element for one character.
   */
  ghost predicate MatchesFrom(p: string, i: nat, t: string, j: nat)
    requires i <= |p| && j <= |t|
    decreases |p| - i
  {
    if i == |p| then j == |t|
    else if p[i] == '*' then
      var rest := i + 1;
      exists k :: j <= k <= |t| && MatchesFrom(p, rest, t, k)
    else
      var e := ElementAt(p, i);
      j < |t| && Accepts(e, t[j]) && MatchesFrom(p, i + Width(e), t, j + 1)
  }

  ghost predicate Matches(p: string, t: string) {
    MatchesFrom(p, 0, t, 0)
  }

  // ---- the class scanner --------------------------------------------------------

  lemma InItemsExtend(items: seq<Item>, item: Item, c: char)
    ensures InItems(items + [item], c) <==> InItems(items, c) || InItem(item, c)
  {
    var more := items + [item];
    assert more[|items|] == item;
    assert forall k :: 0 <= k < |items| ==> more[k] == items[k];
  }

  lemma PrefixedByNothing(rest: Option<(seq<Item>, nat)>)
    ensures Prefixed([], rest) == rest
  {
    if rest.Some? {
      assert [] + rest.value.0 == rest.value.0;
    }
  }

  lemma PrefixedByOne(seen: seq<Item>, item: Item, rest: Option<(seq<Item>, nat)>)
    ensures Prefixed(seen, Prefixed([item], rest)) == Prefixed(seen + [item], rest)
  {
    if rest.Some? {
      assert seen + ([item] + rest.value.0) == (seen + [item]) + rest.value.0;
    }
  }

  /** The class scan: membership, width and closedness, in one pass over the bracket that opens at `at`. */
  method GlobClassMatch(pattern: string, at: nat, character: char) returns (matched: bool, width: nat, ok: bool)
    requires at < |pattern| && pattern[at] == '['
    ensures ok <==> ParseClass(pattern, at).Some?
    ensures ok ==> width == ParseClass(pattern, at).value.width
    ensures ok ==> (matched <==> InClass(ParseClass(pattern, at).value, character))
    ensures !ok ==> !matched && width == 0
  {
    var index := at + 1;
    var negate := Negated(pattern, at);
    if negate {
      index := index + 1;
    }
    ghost var start := index;
    ghost var seen: seq<Item> := [];
    PrefixedByNothing(Items(pattern, start, true));
    var inside, first := false, true;
    while index < |pattern|
      invariant at < start <= index <= |pattern|
      invariant first ==> index == start && seen == []
      invariant inside <==> InItems(seen, character)
      invariant Items(pattern, start, true) == Prefixed(seen, Items(pattern, index, first))
    {
      if pattern[index] == ']' && !first {
        assert seen + [] == seen;
        return inside != negate, index + 1 - at, true;
      }
      ghost var item;
      if index + 2 < |pattern| && pattern[index + 1] == '-' && pattern[index + 2] != ']' {
        item := Range(pattern[index], pattern[index + 2]);
        if pattern[index] <= character <= pattern[index + 2] {
          inside := true;
        }
        index := index + 3;
      } else {
        item := One(pattern[index]);
        if pattern[index] == character {
          inside := true;
        }
        index := index + 1;
      }
      InItemsExtend(seen, item, character);
      PrefixedByOne(seen, item, Items(pattern, index, false));
      seen := seen + [item];
      first := false;
    }
    return false, 0, false;
  }

  // ---- why the last star is enough ------------------------------------------------

  /** The pattern index reached from i by n elements, none of them a star; None when a star or the end comes first. */
  function Skip(p: string, i: nat, n: nat): (r: Option<nat>)
    requires i <= |p|
    ensures r.Some? ==> i <= r.value <= |p|
    decreases n
  {
    if n == 0 then Some(i)
    else if i == |p| || p[i] == '*' then None
    else Skip(p, i + Width(ElementAt(p, i)), n - 1)
  }

  lemma {:induction false} SkipOneMore(p: string, i: nat, n: nat)
    requires i <= |p| && Skip(p, i, n).Some?
    requires Skip(p, i, n).value < |p| && p[Skip(p, i, n).value] != '*'
    ensures var j := Skip(p, i, n).value;
            Skip(p, i, n + 1) == Some(j + Width(ElementAt(p, j)))
    decreases n
  {
    if n > 0 {
      SkipOneMore(p, i + Width(ElementAt(p, i)), n - 1);
    }
  }

  /** n star-free elements consume exactly n characters, whatever the text. */
  lemma {:induction false} SkipConsumes(p: string, i: nat, n: nat, t: string, j: nat)
    requires i <= |p| && j <= |t| && Skip(p, i, n).Some? && MatchesFrom(p, i, t, j)
    ensures j + n <= |t| && MatchesFrom(p, Skip(p, i, n).value, t, j + n)
    decreases n
  {
    if n > 0 {
      SkipConsumes(p, i + Width(ElementAt(p, i)), n - 1, t, j + 1);
    }
  }

  /** Some later start of the text after the remembered star still matches. */
  ghost predicate Retry(p: string, t: string, starPattern: nat, starText: nat)
    requires starPattern <= |p|
  {
    exists k :: starText < k <= |t| && MatchesFrom(p, starPattern, t, k)
  }

  /**
   A new star makes the older one superfluous: whatever a later start after the old
   star could still match, the new star reaches as well.
   */
  lemma NewStarSubsumesOld(p: string, t: string, starPattern: nat, starText: nat, pi: nat, ti: nat)
    requires starPattern <= pi < |p| && p[pi] == '*' && starText <= ti <= |t|
    requires Skip(p, starPattern, ti - starText) == Some(pi)
    requires Retry(p, t, starPattern, starText)
    ensures MatchesFrom(p, pi, t, ti)
  {
    var k :| starText < k <= |t| && MatchesFrom(p, starPattern, t, k);
    SkipConsumes(p, starPattern, ti - starText, t, k);
    var m :| k + (ti - starText) <= m <= |t| && MatchesFrom(p, pi + 1, t, m);
    assert ti <= m <= |t|;
  }

  /** With no text left, only stars match. */
  lemma {:induction false} OnlyStarsMatchNothing(p: string, pi: nat, t: string)
    requires pi <= |p|
    ensures MatchesFrom(p, pi, t, |t|) <==> forall j :: pi <= j < |p| ==> p[j] == '*'
    decreases |p| - pi
  {
    if pi < |p| {
      OnlyStarsMatchNothing(p, pi + 1, t);
    }
  }

  /** Once the text is used up there is no later start left to try. */
  lemma NoTextLeftToRetry(p: string, t: string, starPattern: nat, starText: nat, pi: nat)
    requires starPattern <= pi <= |p| && starText <= |t|
    requires Skip(p, starPattern, |t| - starText) == Some(pi)
    ensures !Retry(p, t, starPattern, starText)
  {
    forall k | starText < k <= |t|
      ensures !MatchesFrom(p, starPattern, t, k)
    {
      if MatchesFrom(p, starPattern, t, k) {
        SkipConsumes(p, starPattern, |t| - starText, t, k);
      }
    }
  }

  // ---- the matcher -----------------------------------------------------------------

  /** Where the scan is: pattern and text positions, and the last star with the text it was tried on. */
  datatype Scan = Scan(pi: nat, ti: nat, star: bool, starPattern: nat, starText: nat)

  /**
   The scan is on track: the whole question is whether the rest of the pattern
   matches the rest of the text, or a later start after the remembered star does.
   */
  ghost predicate OnTrack(p: string, t: string, s: Scan) {
    && s.pi <= |p| && s.ti <= |t| && s.starText <= |t|
    && (s.star ==> s.starPattern <= s.pi && s.starText <= s.ti && Skip(p, s.starPattern, s.ti - s.starText) == Some(s.pi))
    && (Matches(p, t) <==> MatchesFrom(p, s.pi, t, s.ti) || (s.star && Retry(p, t, s.starPattern, s.starText)))
  }

  lemma AfterStar(p: string, t: string, s: Scan)
    requires OnTrack(p, t, s) && s.pi < |p| && p[s.pi] == '*'
    ensures OnTrack(p, t, Scan(s.pi + 1, s.ti, true, s.pi + 1, s.ti))
  {
    if s.star && Retry(p, t, s.starPattern, s.starText) {
      NewStarSubsumesOld(p, t, s.starPattern, s.starText, s.pi, s.ti);
    }
    StarSplits(p, t, s.pi, s.ti);
  }

  /** A star matches here exactly when the rest matches here or at some later place. */
  lemma StarSplits(p: string, t: string, pi: nat, ti: nat)
    requires pi < |p| && p[pi] == '*' && ti <= |t|
    ensures MatchesFrom(p, pi, t, ti) <==> MatchesFrom(p, pi + 1, t, ti) || Retry(p, t, pi + 1, ti)
  {
  }

  lemma AfterElement(p: string, t: string, s: Scan)
    requires OnTrack(p, t, s) && s.pi < |p| && p[s.pi] != '*' && s.ti < |t|
    ensures var e := ElementAt(p, s.pi);
            if Accepts(e, t[s.ti]) then OnTrack(p, t, s.(pi := s.pi + Width(e), ti := s.ti + 1))
            else !MatchesFrom(p, s.pi, t, s.ti)
  {
    if s.star {
      SkipOneMore(p, s.starPattern, s.ti - s.starText);
      assert s.ti + 1 - s.starText == (s.ti - s.starText) + 1;
    }
  }

  lemma AfterMismatch(p: string, t: string, s: Scan)
    requires OnTrack(p, t, s) && s.ti < |t| && !MatchesFrom(p, s.pi, t, s.ti)
    ensures if s.star then OnTrack(p, t, Scan(s.starPattern, s.starText + 1, true, s.starPattern, s.starText + 1))
            else !Matches(p, t)
  {
  }

  lemma AtTextEnd(p: string, t: string, s: Scan)
    requires OnTrack(p, t, s) && s.ti == |t|
    ensures Matches(p, t) <==> forall j :: s.pi <= j < |p| ==> p[j] == '*'
  {
    OnlyStarsMatchNothing(p, s.pi, t);
    if s.star {
      NoTextLeftToRetry(p, t, s.starPattern, s.starText, s.pi);
    }
  }

  /** Does the element at this index, not a star, accept the character? */
  method MatchElement(p: string, i: nat, c: char) returns (ok: bool, width: nat)
    requires i < |p| && p[i] != '*'
    ensures ok <==> Accepts(ElementAt(p, i), c)
    ensures ok ==> width == Width(ElementAt(p, i))
  {
    if p[i] == '?' {
      return true, 1;
    }
    if p[i] == '[' {
      var matched, w, closed := GlobClassMatch(p, i, c);
      if closed && matched {
        return true, w;
      }
      return !closed && p[i] == c, 1;
    }
    return p[i] == c, 1;
  }

  /** The greedy scan decides exactly the recursive meaning of the pattern. */
  method GlobMatch(p: string, t: string) returns (r: bool)
    ensures r <==> Matches(p, t)
  {
    var s := Scan(0, 0, false, 0, 0);
    while s.ti < |t|
      invariant OnTrack(p, t, s)
      decreases if s.star then |p| - s.starPattern else |p| + 1, |t| - s.starText, |p| - s.pi
    {
      if s.pi < |p| && p[s.pi] == '*' {
        AfterStar(p, t, s);
        s := Scan(s.pi + 1, s.ti, true, s.pi + 1, s.ti);
        continue;
      }
      if s.pi < |p| {
        AfterElement(p, t, s);
        var ok, width := MatchElement(p, s.pi, t[s.ti]);
        if ok {
          s := s.(pi := s.pi + width, ti := s.ti + 1);
          continue;
        }
      }
      AfterMismatch(p, t, s);
      if !s.star {
        return false;
      }
      s := Scan(s.starPattern, s.starText + 1, true, s.starPattern, s.starText + 1);
    }
    AtTextEnd(p, t, s);
    var pi := s.pi;
    while pi < |p| && p[pi] == '*'
      invariant pi <= |p|
      invariant Matches(p, t) <==> forall j :: pi <= j < |p| ==> p[j] == '*'
    {
      pi := pi + 1;
    }
    return pi == |p|;
  }

  // ---- what a written pattern means --------------------------------------------------

  /** A pattern in parts, and how each is written; a mark after the bracket negates the list. */
  datatype Part = Star | AnyOne | Plain(c: char) | Set(mark: string, items: seq<Item>)

  /** A character that stands for itself inside and outside of brackets. */
  predicate Ordinary(c: char) {
    c !in {'*', '?', '[', ']', '-', '!', '^'}
  }

  predicate OrdinaryItem(item: Item) {
    match item
    case One(c) => Ordinary(c)
    case Range(low, high) => Ordinary(low) && Ordinary(high)
  }

  predicate Written(part: Part) {
    match part
    case Plain(c) => c !in {'*', '?', '['}
    case Set(mark, items) => mark in {"", "!", "^"} && items != [] && forall item :: item in items ==> OrdinaryItem(item)
    case _ => true
  }

  function ItemText(item: Item): string {
    match item
    case One(c) => [c]
    case Range(low, high) => [low, '-', high]
  }

  function ItemsText(items: seq<Item>): string {
    if items == [] then "" else ItemText(items[0]) + ItemsText(items[1..])
  }

  function PartText(part: Part): string {
    match part
    case Star => "*"
    case AnyOne => "?"
    case Plain(c) => [c]
    case Set(mark, items) => "[" + mark + ItemsText(items) + "]"
  }

  function PatternText(parts: seq<Part>): string {
    if parts == [] then "" else PartText(parts[0]) + PatternText(parts[1..])
  }

  /** The character is listed, alone or within a range. */
  ghost predicate ListedIn(items: seq<Item>, c: char) {
    exists item :: item in items && (item == One(c) || (item.Range? && item.low <= c <= item.high))
  }

  /** What a part that is no star says of one character. */
  ghost predicate Takes(part: Part, c: char) {
    match part
    case Star => false
    case AnyOne => true
    case Plain(d) => c == d
    case Set(mark, items) => if mark == "" then ListedIn(items, c) else !ListedIn(items, c)
  }

  /** The text from index j on is made up of what the parts stand for, one after the other. */
  ghost predicate MadeOf(parts: seq<Part>, t: string, j: nat)
    requires j <= |t|
    decreases |parts|
  {
    if parts == [] then j == |t|
    else if parts[0] == Star then exists k :: j <= k <= |t| && MadeOf(parts[1..], t, k)
    else j < |t| && Takes(parts[0], t[j]) && MadeOf(parts[1..], t, j + 1)
  }

  ghost predicate StandsAt(p: string, i: nat, s: string) {
    i <= |p| && s <= p[i..]
  }

  lemma CharAt(p: string, i: nat, s: string, k: nat)
    requires StandsAt(p, i, s) && k < |s|
    ensures i + k < |p| && p[i + k] == s[k]
  {
    assert p[i..][k] == s[k];
  }

  lemma StandsAtConcat(p: string, i: nat, a: string, b: string)
    requires StandsAt(p, i, a + b)
    ensures StandsAt(p, i, a) && StandsAt(p, i + |a|, b)
  {
    var rest := p[i..];
    assert rest[..|a + b|] == a + b;
    assert rest[..|a|] == a && rest[|a|..|a| + |b|] == b;
    assert p[i + |a|..] == rest[|a|..];
  }

  /** One item is read, as it is written, and then the others. */
  lemma ItemIsRead(p: string, i: nat, item: Item, first: bool)
    requires OrdinaryItem(item) && StandsAt(p, i, ItemText(item)) && i + |ItemText(item)| < |p| && p[i + |ItemText(item)|] != '-'
    ensures Items(p, i, first) == Prefixed([item], Items(p, i + |ItemText(item)|, false))
  {
    CharAt(p, i, ItemText(item), 0);
    if item.Range? {
      CharAt(p, i, ItemText(item), 1);
      CharAt(p, i, ItemText(item), 2);
    }
  }

  /** The body of a class that starts here lists these items and ends before `end`. */
  ghost predicate Reads(p: string, i: nat, first: bool, items: seq<Item>, end: nat) {
    Items(p, i, first) == Some((items, end))
  }

  lemma ItemsGlue(p: string, i: nat, first: bool, item: Item, more: seq<Item>, items: seq<Item>, next: nat, end: nat)
    requires Items(p, i, first) == Prefixed([item], Items(p, next, false)) && items == [item] + more
    ensures Reads(p, next, false, more, end) ==> Reads(p, i, first, items, end)
  {
  }

  lemma {:induction false} ItemsRead(p: string, i: nat, items: seq<Item>, first: bool, end: nat)
    requires StandsAt(p, i, ItemsText(items) + "]") && end == i + |ItemsText(items)| + 1
    requires (forall item :: item in items ==> OrdinaryItem(item)) && (first ==> items != [])
    ensures Reads(p, i, first, items, end)
    decreases |items|
  {
    if items == [] {
      assert ItemsText(items) + "]" == "]";
      CharAt(p, i, "]", 0);
    } else {
      var next, more := i + |ItemText(items[0])|, items[1..];
      FirstItem(p, i, items, first);
      ItemsRead(p, next, more, false, end);
      ItemsGlue(p, i, first, items[0], more, items, next, end);
    }
  }

  lemma ItemsTextStep(items: seq<Item>)
    requires items != []
    ensures ItemsText(items) + "]" == ItemText(items[0]) + (ItemsText(items[1..]) + "]")
    ensures |ItemsText(items)| == |ItemText(items[0])| + |ItemsText(items[1..])|
  {
  }

  lemma FirstItem(p: string, i: nat, items: seq<Item>, first: bool)
    requires StandsAt(p, i, ItemsText(items) + "]") && items != []
    requires forall item :: item in items ==> OrdinaryItem(item)
    ensures var next := i + |ItemText(items[0])|;
            && StandsAt(p, next, ItemsText(items[1..]) + "]")
            && Items(p, i, first) == Prefixed([items[0]], Items(p, next, false))
    ensures |ItemsText(items)| == |ItemText(items[0])| + |ItemsText(items[1..])|
    ensures items == [items[0]] + items[1..] && forall item :: item in items[1..] ==> item in items
  {
    ItemsTextStep(items);
    FirstOfItems(items[1..]);
    assert items[0] in items;
    ItemThenTail(p, i, items[0], first, ItemsText(items[1..]) + "]");
  }

  lemma ItemThenTail(p: string, i: nat, item: Item, first: bool, tail: string)
    requires StandsAt(p, i, ItemText(item) + tail) && OrdinaryItem(item) && tail != "" && tail[0] != '-'
    ensures var next := i + |ItemText(item)|;
            StandsAt(p, next, tail) && Items(p, i, first) == Prefixed([item], Items(p, next, false))
  {
    StandsAtConcat(p, i, ItemText(item), tail);
    CharAt(p, i + |ItemText(item)|, tail, 0);
    ItemIsRead(p, i, item, first);
  }

  /** What follows an item is never a hyphen. */
  lemma FirstOfItems(items: seq<Item>)
    requires forall item :: item in items ==> OrdinaryItem(item)
    ensures (ItemsText(items) + "]")[0] != '-' && (items != [] ==> (ItemsText(items) + "]")[0] !in {'!', '^'})
  {
    if items != [] {
      assert items[0] in items;
      assert ItemsText(items)[0] == ItemText(items[0])[0];
    }
  }

  lemma MarkIsRead(p: string, i: nat, mark: string, body: string)
    requires mark in {"", "!", "^"} && body != "" && body[0] !in {'!', '^'} && StandsAt(p, i, "[" + (mark + body))
    ensures i < |p| && p[i] == '[' && (Negated(p, i) <==> mark != "") && StandsAt(p, i + 1 + |mark|, body)
  {
    StandsAtConcat(p, i, "[", mark + body);
    StandsAtConcat(p, i + 1, mark, body);
    CharAt(p, i, "[", 0);
    CharAt(p, i + 1 + |mark|, body, 0);
    if mark != "" {
      CharAt(p, i + 1, mark, 0);
    }
  }

  lemma SetText(mark: string, items: seq<Item>)
    ensures PartText(Set(mark, items)) == "[" + (mark + (ItemsText(items) + "]"))
  {
  }

  lemma SetIsRead(p: string, i: nat, mark: string, items: seq<Item>)
    requires Written(Set(mark, items)) && StandsAt(p, i, PartText(Set(mark, items)))
    ensures i < |p| && p[i] == '['
    ensures ParseClass(p, i) == Some(Class(items, mark != "", |PartText(Set(mark, items))|))
  {
    var body := ItemsText(items) + "]";
    SetText(mark, items);
    FirstOfItems(items);
    MarkIsRead(p, i, mark, body);
    ItemsRead(p, i + 1 + |mark|, items, true, i + 1 + |mark| + |body|);
  }

  lemma InItemsIff(items: seq<Item>, c: char)
    ensures InItems(items, c) <==> ListedIn(items, c)
  {
    if ListedIn(items, c) {
      var item :| item in items && (item == One(c) || (item.Range? && item.low <= c <= item.high));
      var k :| 0 <= k < |items| && items[k] == item;
      assert InItem(items[k], c);
    }
    if InItems(items, c) {
      var k :| 0 <= k < |items| && InItem(items[k], c);
      assert items[k] in items && (items[k] == One(c) || (items[k].Range? && items[k].low <= c <= items[k].high));
    }
  }

  /** A written part is read as what it stands for. */
  lemma PartIsRead(p: string, i: nat, part: Part, c: char)
    requires Written(part) && StandsAt(p, i, PartText(part)) && part != Star
    ensures i < |p| && p[i] != '*' && Width(ElementAt(p, i)) == |PartText(part)|
    ensures Accepts(ElementAt(p, i), c) <==> Takes(part, c)
  {
    CharAt(p, i, PartText(part), 0);
    if part.Set? {
      SetIsRead(p, i, part.mark, part.items);
      InItemsIff(part.items, c);
    }
  }

  ghost predicate SameFrom(p: string, i: nat, parts: seq<Part>, t: string, j: nat)
    requires i <= |p| && j <= |t|
  {
    MatchesFrom(p, i, t, j) == MadeOf(parts, t, j)
  }

  lemma StarIsRead(p: string, i: nat, rest: nat, parts: seq<Part>, more: seq<Part>, t: string, j: nat)
    requires j <= |t| && i < |p| && p[i] == '*' && rest == i + 1
    requires parts != [] && parts[0] == Star && more == parts[1..]
    requires forall k :: j <= k <= |t| ==> SameFrom(p, rest, more, t, k)
    ensures SameFrom(p, i, parts, t, j)
  {
    assert MatchesFrom(p, i, t, j) <==> exists k :: j <= k <= |t| && MatchesFrom(p, rest, t, k);
    assert MadeOf(parts, t, j) <==> exists k :: j <= k <= |t| && MadeOf(more, t, k);
    assert forall k :: j <= k <= |t| && MatchesFrom(p, rest, t, k) ==> SameFrom(p, rest, more, t, k);
    assert forall k :: j <= k <= |t| && MadeOf(more, t, k) ==> SameFrom(p, rest, more, t, k);
  }

  lemma OtherIsRead(p: string, i: nat, next: nat, parts: seq<Part>, more: seq<Part>, t: string, j: nat)
    requires j < |t| && parts != [] && parts[0] != Star && Written(parts[0]) && more == parts[1..]
    requires StandsAt(p, i, PartText(parts[0])) && next == i + |PartText(parts[0])| && next <= |p|
    ensures SameFrom(p, next, more, t, j + 1) ==> SameFrom(p, i, parts, t, j)
  {
    PartIsRead(p, i, parts[0], t[j]);
  }

  /** Only stars are left to match where the text has ended. */
  lemma OtherAtEnd(p: string, i: nat, parts: seq<Part>, t: string)
    requires parts != [] && parts[0] != Star && Written(parts[0]) && StandsAt(p, i, PartText(parts[0]))
    ensures SameFrom(p, i, parts, t, |t|)
  {
    PartIsRead(p, i, parts[0], 'a');
  }

  ghost predicate AllWritten(parts: seq<Part>) {
    forall part :: part in parts ==> Written(part)
  }

  /** The text of these parts is what is left of the pattern from here on. */
  ghost predicate Left(p: string, i: nat, parts: seq<Part>) {
    i <= |p| && p[i..] == PatternText(parts) && AllWritten(parts)
  }

  lemma LeftStep(p: string, i: nat, parts: seq<Part>)
    requires Left(p, i, parts) && parts != []
    ensures StandsAt(p, i, PartText(parts[0])) && Left(p, i + |PartText(parts[0])|, parts[1..]) && Written(parts[0])
  {
    var head, rest := PartText(parts[0]), PatternText(parts[1..]);
    assert parts[0] in parts;
    StandsAtConcat(p, i, head, rest);
    assert p[i + |head|..] == p[i..][|head|..];
  }

  lemma {:induction false} WrittenFrom(p: string, i: nat, parts: seq<Part>, t: string, j: nat)
    requires j <= |t| && Left(p, i, parts)
    ensures SameFrom(p, i, parts, t, j)
    decreases |parts|, 1
  {
    if parts == [] {
      WrittenNothing(p, i, t, j);
    } else {
      LeftStep(p, i, parts);
      var next, more := i + |PartText(parts[0])|, parts[1..];
      if parts[0] == Star {
        WrittenStar(p, i, next, parts, more, t, j);
      } else {
        WrittenOther(p, i, next, parts, more, t, j);
      }
    }
  }

  lemma WrittenNothing(p: string, i: nat, t: string, j: nat)
    requires j <= |t| && Left(p, i, [])
    ensures SameFrom(p, i, [], t, j)
  {
    assert i == |p|;
  }

  lemma {:induction false} WrittenOther(p: string, i: nat, next: nat, parts: seq<Part>, more: seq<Part>, t: string, j: nat)
    requires j <= |t| && parts != [] && parts[0] != Star && Written(parts[0]) && more == parts[1..]
    requires StandsAt(p, i, PartText(parts[0])) && next == i + |PartText(parts[0])| && Left(p, next, more)
    ensures SameFrom(p, i, parts, t, j)
    decreases |parts|, 0
  {
    if j == |t| {
      OtherAtEnd(p, i, parts, t);
    } else {
      WrittenFrom(p, next, more, t, j + 1);
      OtherIsRead(p, i, next, parts, more, t, j);
    }
  }

  lemma {:induction false} WrittenStar(p: string, i: nat, next: nat, parts: seq<Part>, more: seq<Part>, t: string, j: nat)
    requires j <= |t| && StandsAt(p, i, PartText(Star)) && next == i + |PartText(Star)|
    requires parts != [] && parts[0] == Star && more == parts[1..] && Left(p, next, more)
    ensures SameFrom(p, i, parts, t, j)
    decreases |parts|, 0
  {
    CharAt(p, i, PartText(Star), 0);
    forall k | j <= k <= |t|
      ensures SameFrom(p, next, more, t, k)
    {
      WrittenFrom(p, next, more, t, k);
    }
    StarIsRead(p, i, next, parts, more, t, j);
  }

  /** A pattern that is written out of parts matches exactly the texts made of what they stand for. */
  lemma WrittenPatternMeans(parts: seq<Part>, t: string)
    requires AllWritten(parts)
    ensures Matches(PatternText(parts), t) <==> MadeOf(parts, t, 0)
  {
    assert PatternText(parts)[0..] == PatternText(parts);
    WrittenFrom(PatternText(parts), 0, parts, t, 0);
  }

  lemma {:induction false} NoEnd(p: string, i: nat, first: bool)
    requires forall k :: i <= k < |p| && (k > i || !first) ==> p[k] != ']'
    ensures Items(p, i, first).None?
    decreases |p| - i
  {
    if i < |p| {
      var ranged := i + 2 < |p| && p[i + 1] == '-' && p[i + 2] != ']';
      NoEnd(p, if ranged then i + 3 else i + 1, false);
    }
  }

  /** A bracket that is never closed stands for itself; one that closes at once does not close it. */
  lemma UnclosedIsLiteral(p: string, at: nat)
    requires at < |p| && p[at] == '['
    requires var body := if Negated(p, at) then at + 2 else at + 1; forall k :: body < k < |p| ==> p[k] != ']'
    ensures ElementAt(p, at) == Literal('[')
  {
    NoEnd(p, if Negated(p, at) then at + 2 else at + 1, true);
  }

  /** A closing bracket that comes first is listed, not the end. */
  lemma BracketFirstIsListed(p: string, c: char)
    requires |p| >= 3 && p[0] == '[' && p[1] == p[2] == ']'
    ensures var e := ElementAt(p, 0); e.OneOf? && Width(e) == 3 && (Accepts(e, c) <==> c == ']')
  {
    var none: seq<Item> := [];
    assert Items(p, 2, false) == Some((none, 3));
    assert [One(']')] + none == [One(']')];
    assert Items(p, 1, true) == Some(([One(']')], 3));
    var e := ElementAt(p, 0);
    assert e.cls.items == [One(']')] && e.cls.items[0] == One(']');
  }
}
