/**
 The order of kernel release names, and the newest kernel of an image. Digit runs
 compare as numbers, everything else byte by byte.
 */
module KernelVersion {
  import opened Text

  // ---- the order as a specification ----------------------------------------------

  /** A maximal digit run, read as a number, or any other single character. */
  datatype Token = Num(value: nat) | Ch(c: char)

  predicate IsDigit(c: char) {
    '0' <= c <= '9'
  }

  /** The end of the digit run that covers index i, or i itself. */
  function RunEnd(s: string, i: nat): (e: nat)
    requires i <= |s|
    ensures i <= e <= |s| && forall k :: i <= k < e ==> IsDigit(s[k])
    ensures e < |s| ==> !IsDigit(s[e])
    decreases |s| - i
  {
    if i < |s| && IsDigit(s[i]) then RunEnd(s, i + 1) else i
  }

  predicate AllDigits(s: string) {
    forall k :: 0 <= k < |s| ==> IsDigit(s[k])
  }

  function Digit(c: char): nat
    requires IsDigit(c)
  {
    c as int - '0' as int
  }

  function Pow10(n: nat): (p: nat)
    ensures p > 0
  {
    if n == 0 then 1 else 10 * Pow10(n - 1)
  }

  /** The number a digit string denotes. */
  function Value(s: string): nat
    requires AllDigits(s)
  {
    if s == "" then 0 else Digit(s[0]) * Pow10(|s| - 1) + Value(s[1..])
  }

  function Tokens(s: string, i: nat): seq<Token>
    requires i <= |s|
    decreases |s| - i
  {
    if i == |s| then []
    else if IsDigit(s[i]) then [Num(Value(s[i..RunEnd(s, i)]))] + Tokens(s, RunEnd(s, i))
    else [Ch(s[i])] + Tokens(s, i + 1)
  }

  /** No digit stands alone as a character. */
  predicate Proper(t: Token) {
    t.Ch? ==> !IsDigit(t.c)
  }

  predicate TokenLess(a: Token, b: Token) {
    match (a, b)
    case (Num(m), Num(n)) => m < n
    case (Ch(c), Ch(d)) => c < d
    case (Num(_), Ch(d)) => '9' < d
    case (Ch(c), Num(_)) => c < '0'
  }

  predicate TokensLess(a: seq<Token>, b: seq<Token>) {
    if b == [] then false
    else if a == [] then true
    else TokenLess(a[0], b[0]) || (a[0] == b[0] && TokensLess(a[1..], b[1..]))
  }

  /** Token by token; names that differ only in leading zeros fall back to bytes. */
  predicate VersionLess(a: string, b: string) {
    TokensLess(Tokens(a, 0), Tokens(b, 0)) || (Tokens(a, 0) == Tokens(b, 0) && Less(a, b))
  }

  // ---- it is a strict total order -------------------------------------------------

  predicate AllProper(q: seq<Token>) {
    forall t :: t in q ==> Proper(t)
  }

  lemma {:induction false} TokensAreProper(s: string, i: nat)
    requires i <= |s|
    ensures AllProper(Tokens(s, i))
    decreases |s| - i
  {
    if i < |s| {
      TokensAreProper(s, if IsDigit(s[i]) then RunEnd(s, i) else i + 1);
    }
  }

  lemma {:induction false} TokensTotal(a: seq<Token>, b: seq<Token>)
    requires AllProper(a) && AllProper(b)
    ensures a == b || TokensLess(a, b) || TokensLess(b, a)
  {
    if a != [] && b != [] {
      assert a[0] in a && b[0] in b;
      if a[0] == b[0] {
        TokensTotal(a[1..], b[1..]);
        assert a == [a[0]] + a[1..] && b == [b[0]] + b[1..];
      }
    }
  }

  lemma {:induction false} TokensTransitive(a: seq<Token>, b: seq<Token>, c: seq<Token>)
    requires AllProper(a) && AllProper(b) && AllProper(c)
    requires TokensLess(a, b) && TokensLess(b, c)
    ensures TokensLess(a, c)
  {
    if a != [] {
      assert a[0] in a && b[0] in b && c[0] in c;
      if a[0] == b[0] == c[0] {
        TokensTransitive(a[1..], b[1..], c[1..]);
      }
    }
  }

  lemma {:induction false} TokensIrreflexive(a: seq<Token>)
    ensures !TokensLess(a, a)
  {
    if a != [] {
      TokensIrreflexive(a[1..]);
    }
  }

  /** Any two names are comparable in exactly one way, and the order is transitive. */
  lemma VersionLessIsStrictTotalOrder(a: string, b: string, c: string)
    ensures !VersionLess(a, a)
    ensures a == b || VersionLess(a, b) || VersionLess(b, a)
    ensures !(VersionLess(a, b) && VersionLess(b, a))
    ensures VersionLess(a, b) && VersionLess(b, c) ==> VersionLess(a, c)
  {
    TokensAreProper(a, 0);
    TokensAreProper(b, 0);
    TokensAreProper(c, 0);
    TokensIrreflexive(Tokens(a, 0));
    LessIrreflexive(a);
    TokensTotal(Tokens(a, 0), Tokens(b, 0));
    LessTotal(a, b);
    VersionTransitive(a, b, c);
    VersionTransitive(a, b, a);
  }

  lemma VersionTransitive(a: string, b: string, c: string)
    ensures VersionLess(a, b) && VersionLess(b, c) ==> VersionLess(a, c)
  {
    if VersionLess(a, b) && VersionLess(b, c) {
      TokensAreProper(a, 0);
      TokensAreProper(b, 0);
      TokensAreProper(c, 0);
      if TokensLess(Tokens(a, 0), Tokens(b, 0)) && TokensLess(Tokens(b, 0), Tokens(c, 0)) {
        TokensTransitive(Tokens(a, 0), Tokens(b, 0), Tokens(c, 0));
      } else if Less(a, b) && Less(b, c) {
        LessTransitive(a, b, c);
      }
    }
  }

  // ---- comparing digit runs without building numbers --------------------------------

  lemma HeadDecides(x: nat, y: nat, p: nat, r: nat, s: nat)
    requires r < p && s < p
    ensures x < y ==> x * p + r < y * p + s
  {
    if x < y {
      assert (x + 1) * p <= y * p;
      assert (x + 1) * p == x * p + p;
    }
  }

  lemma HeadsDecide(x: nat, y: nat, p: nat, r: nat, s: nat)
    requires r < p && s < p && x != y
    ensures (x * p + r < y * p + s <==> x < y) && x * p + r != y * p + s
  {
    HeadDecides(x, y, p, r, s);
    HeadDecides(y, x, p, s, r);
  }

  lemma {:induction false} ValueBound(s: string)
    requires AllDigits(s)
    ensures Value(s) < Pow10(|s|)
  {
    if s != "" {
      ValueBound(s[1..]);
      HeadDecides(Digit(s[0]), 10, Pow10(|s| - 1), Value(s[1..]), 0);
    }
  }

  lemma {:induction false} Pow10Grows(m: nat, n: nat)
    requires m <= n
    ensures Pow10(m) <= Pow10(n)
  {
    if m < n {
      Pow10Grows(m, n - 1);
    }
  }

  /** Without leading zeros the longer number is the greater one. */
  lemma LongerIsGreater(a: string, b: string)
    requires AllDigits(a) && AllDigits(b) && |a| < |b| && b[0] != '0'
    ensures Value(a) < Value(b)
  {
    ValueBound(a);
    Pow10Grows(|a|, |b| - 1);
    HeadDecides(0, Digit(b[0]), Pow10(|b| - 1), Pow10(|b| - 1) - 1, 0);
  }

  /** At equal length, numbers compare as their digits do. */
  lemma {:induction false} SameLengthByBytes(a: string, b: string)
    requires AllDigits(a) && AllDigits(b) && |a| == |b|
    ensures Value(a) < Value(b) <==> Less(a, b)
    ensures Value(a) == Value(b) <==> a == b
  {
    if a != "" {
      var p := Pow10(|a| - 1);
      ValueBound(a[1..]);
      ValueBound(b[1..]);
      if a[0] == b[0] {
        SameLengthByBytes(a[1..], b[1..]);
        assert a == [a[0]] + a[1..] && b == [b[0]] + b[1..];
      } else {
        HeadsDecide(Digit(a[0]), Digit(b[0]), p, Value(a[1..]), Value(b[1..]));
      }
    }
  }

  /** Leading zeros, but not the last digit, dropped from the run [i, e). */
  function Stripped(s: string, i: nat, e: nat): (n: nat)
    requires i < e <= |s|
    ensures i <= n < e
    decreases e - i
  {
    if i < e - 1 && s[i] == '0' then Stripped(s, i + 1, e) else i
  }

  lemma {:induction false} StrippingKeepsValue(s: string, i: nat, e: nat)
    requires i < e <= |s| && AllDigits(s[i..e])
    ensures var n := Stripped(s, i, e);
            && AllDigits(s[n..e]) && Value(s[n..e]) == Value(s[i..e])
            && (e - n > 1 ==> s[n] != '0')
    decreases e - i
  {
    if i < e - 1 && s[i] == '0' {
      assert s[i..e][1..] == s[i + 1..e];
      StrippingKeepsValue(s, i + 1, e);
    }
  }

  method SkipDigits(s: string, i: nat) returns (e: nat)
    requires i <= |s|
    ensures e == RunEnd(s, i)
  {
    e := i;
    while e < |s| && IsDigit(s[e])
      invariant i <= e <= |s| && RunEnd(s, i) == RunEnd(s, e)
    {
      e := e + 1;
    }
  }

  method SkipZeros(s: string, i: nat, e: nat) returns (n: nat)
    requires i < e <= |s|
    ensures n == Stripped(s, i, e)
  {
    n := i;
    while n < e - 1 && s[n] == '0'
      invariant i <= n < e && Stripped(s, i, e) == Stripped(s, n, e)
    {
      n := n + 1;
    }
  }

  /** The digits of the run at i without leading zeros; they denote the token there. */
  method NextRun(s: string, i: nat) returns (run: string, e: nat)
    requires i < |s| && IsDigit(s[i])
    ensures AllDigits(run) && run != "" && (|run| > 1 ==> run[0] != '0')
    ensures i < e <= |s| && Tokens(s, i) == [Num(Value(run))] + Tokens(s, e)
  {
    e := SkipDigits(s, i);
    var n := SkipZeros(s, i, e);
    StrippingKeepsValue(s, i, e);
    run := s[n..e];
  }

  method CompareRuns(a: string, b: string) returns (less: bool, same: bool)
    requires AllDigits(a) && AllDigits(b) && a != "" && b != ""
    requires (|a| > 1 ==> a[0] != '0') && (|b| > 1 ==> b[0] != '0')
    ensures less == (Value(a) < Value(b)) && same == (Value(a) == Value(b))
  {
    if |a| != |b| {
      if |a| < |b| {
        LongerIsGreater(a, b);
      } else {
        LongerIsGreater(b, a);
      }
      return |a| < |b|, false;
    }
    SameLengthByBytes(a, b);
    return Less(a, b), a == b;
  }

  /** What is left to compare from the two positions on decides as the whole does. */
  ghost predicate Undecided(left: string, right: string, i: nat, j: nat)
    requires i <= |left| && j <= |right|
  {
    && (TokensLess(Tokens(left, 0), Tokens(right, 0)) <==> TokensLess(Tokens(left, i), Tokens(right, j)))
    && (Tokens(left, 0) == Tokens(right, 0) <==> Tokens(left, i) == Tokens(right, j))
  }

  lemma SameHead(t: Token, a: seq<Token>, b: seq<Token>)
    ensures TokensLess([t] + a, [t] + b) <==> TokensLess(a, b)
    ensures [t] + a == [t] + b <==> a == b
  {
  }

  method KernelVersionLess(left: string, right: string) returns (less: bool)
    ensures less == VersionLess(left, right)
  {
    var i, j := 0, 0;
    while i < |left| && j < |right|
      invariant i <= |left| && j <= |right| && Undecided(left, right, i, j)
    {
      ghost var p, q := Tokens(left, i), Tokens(right, j);
      if IsDigit(left[i]) && IsDigit(right[j]) {
        var leftRun, iEnd := NextRun(left, i);
        var rightRun, jEnd := NextRun(right, j);
        var lower, same := CompareRuns(leftRun, rightRun);
        if !same {
          return lower;
        }
        SameHead(p[0], Tokens(left, iEnd), Tokens(right, jEnd));
        i, j := iEnd, jEnd;
      } else {
        if left[i] != right[j] {
          return left[i] < right[j];
        }
        SameHead(p[0], Tokens(left, i + 1), Tokens(right, j + 1));
        i, j := i + 1, j + 1;
      }
    }
    TokensIrreflexive(Tokens(left, 0));
    if i == |left| && j == |right| {
      return Less(left, right);
    }
    return i == |left|;
  }

  // ---- what the order says about names ----------------------------------------------

  /** The name does not end inside a digit run of what may follow it. */
  predicate EndsRun(p: string, rest: string) {
    p == "" || rest == "" || !IsDigit(p[|p| - 1]) || !IsDigit(rest[0])
  }

  lemma {:induction false} RunEndIn(p: string, q: string, i: nat)
    requires i <= |p| && EndsRun(p, q)
    ensures i < |p| ==> RunEnd(p + q, i) == RunEnd(p, i)
    decreases |p| - i
  {
    if i < |p| && IsDigit(p[i]) {
      RunEndIn(p, q, i + 1);
    }
  }

  lemma {:induction false} RunEndAfter(p: string, q: string, i: nat)
    requires i <= |q|
    ensures RunEnd(p + q, |p| + i) == |p| + RunEnd(q, i)
    decreases |q| - i
  {
    if i < |q| && IsDigit(q[i]) {
      RunEndAfter(p, q, i + 1);
    }
  }

  lemma SliceAfter(p: string, q: string, i: nat, e: nat)
    requires i <= e <= |q|
    ensures (p + q)[|p| + i..|p| + e] == q[i..e]
  {
  }

  function TokenAt(s: string, i: nat): Token
    requires i < |s|
  {
    if IsDigit(s[i]) then Num(Value(s[i..RunEnd(s, i)])) else Ch(s[i])
  }

  function TokenEnd(s: string, i: nat): (e: nat)
    requires i < |s|
    ensures i < e <= |s|
  {
    if IsDigit(s[i]) then RunEnd(s, i) else i + 1
  }

  lemma TokensStep(s: string, i: nat)
    requires i < |s|
    ensures Tokens(s, i) == [TokenAt(s, i)] + Tokens(s, TokenEnd(s, i))
  {
  }

  lemma TokenAfter(p: string, q: string, i: nat)
    requires i < |q|
    ensures TokenEnd(p + q, |p| + i) == |p| + TokenEnd(q, i) && TokenAt(p + q, |p| + i) == TokenAt(q, i)
  {
    RunEndAfter(p, q, i);
    SliceAfter(p, q, i, RunEnd(q, i));
  }

  lemma TokenIn(p: string, q: string, i: nat)
    requires i < |p| && EndsRun(p, q)
    ensures TokenEnd(p + q, i) == TokenEnd(p, i) && TokenAt(p + q, i) == TokenAt(p, i)
  {
    RunEndIn(p, q, i);
    assert (p + q)[i..RunEnd(p, i)] == p[i..RunEnd(p, i)];
  }

  lemma {:induction false} TokensAfter(p: string, q: string, i: nat)
    requires i <= |q|
    ensures Tokens(p + q, |p| + i) == Tokens(q, i)
    decreases |q| - i
  {
    if i < |q| {
      var e := TokenEnd(q, i);
      TokenAfter(p, q, i);
      TokensAfter(p, q, e);
      TokensStep(q, i);
      TokensStep(p + q, |p| + i);
    }
  }

  lemma HeadGlue(all: seq<Token>, head: Token, rest: seq<Token>, a: seq<Token>, b: seq<Token>)
    requires all == [head] + rest && rest == a + b
    ensures all == [head] + a + b
  {
  }

  lemma {:induction false} TokensIn(p: string, q: string, i: nat)
    requires i <= |p| && EndsRun(p, q)
    ensures Tokens(p + q, i) == Tokens(p, i) + Tokens(q, 0)
    decreases |p| - i
  {
    if i == |p| {
      TokensAfter(p, q, 0);
    } else {
      var e := TokenEnd(p, i);
      TokenIn(p, q, i);
      TokensIn(p, q, e);
      TokensStep(p, i);
      TokensStep(p + q, i);
      HeadGlue(Tokens(p + q, i), TokenAt(p, i), Tokens(p + q, e), Tokens(p, e), Tokens(q, 0));
    }
  }

  lemma {:induction false} RunOfDigits(a: string, i: nat)
    requires AllDigits(a) && i <= |a|
    ensures RunEnd(a, i) == |a|
    decreases |a| - i
  {
    if i < |a| {
      RunOfDigits(a, i + 1);
    }
  }

  /** A number, and what does not go on with a digit. */
  lemma TokensOfNumber(a: string, s: string)
    requires a != "" && AllDigits(a) && (s == "" || !IsDigit(s[0]))
    ensures Tokens(a + s, 0) == [Num(Value(a))] + Tokens(s, 0)
  {
    RunOfDigits(a, 0);
    assert a[0..|a|] == a;
    assert Tokens(a, |a|) == [];
    assert Tokens(a, 0) == [Num(Value(a))];
    TokensIn(a, s, 0);
  }

  lemma {:induction false} SameStart(p: seq<Token>, a: seq<Token>, b: seq<Token>)
    ensures TokensLess(p + a, p + b) <==> TokensLess(a, b)
    ensures p + a == p + b <==> a == b
  {
    if p == [] {
      assert p + a == a && p + b == b;
    } else {
      assert (p + a)[1..] == p[1..] + a && (p + b)[1..] == p[1..] + b;
      SameStart(p[1..], a, b);
      assert p + a == [p[0]] + (p[1..] + a) && p + b == [p[0]] + (p[1..] + b);
    }
  }

  /** Of two names that agree up to a number, the one with the greater number is the newer, whatever follows. */
  lemma GreaterNumberIsNewer(p: string, a: string, s: string, b: string, t: string)
    requires EndsRun(p, a) && EndsRun(p, b) && a != "" && b != "" && AllDigits(a) && AllDigits(b)
    requires (s == "" || !IsDigit(s[0])) && (t == "" || !IsDigit(t[0]))
    requires Value(a) < Value(b)
    ensures VersionLess(p + (a + s), p + (b + t)) && !VersionLess(p + (b + t), p + (a + s))
  {
    var x, y := [Num(Value(a))] + Tokens(s, 0), [Num(Value(b))] + Tokens(t, 0);
    TokensIn(p, a + s, 0);
    TokensIn(p, b + t, 0);
    TokensOfNumber(a, s);
    TokensOfNumber(b, t);
    SameStart(Tokens(p, 0), x, y);
    assert TokensLess(x, y);
    VersionLessIsStrictTotalOrder(p + (a + s), p + (b + t), p);
  }

  /** Where two names first differ in characters that are not both digits, those decide. */
  lemma CharacterDecides(p: string, c: char, s: string, d: char, t: string)
    requires c != d && !(IsDigit(c) && IsDigit(d)) && EndsRun(p, [c]) && EndsRun(p, [d])
    ensures VersionLess(p + ([c] + s), p + ([d] + t)) <==> c < d
  {
    var x, y := [c] + s, [d] + t;
    TokensIn(p, x, 0);
    TokensIn(p, y, 0);
    SameStart(Tokens(p, 0), Tokens(x, 0), Tokens(y, 0));
    assert Tokens(x, 0)[0] == Ch(c) || (IsDigit(c) && Tokens(x, 0)[0].Num?);
    assert Tokens(y, 0)[0] == Ch(d) || (IsDigit(d) && Tokens(y, 0)[0].Num?);
    assert Tokens(x, 0)[0] != Tokens(y, 0)[0];
  }

  lemma ProductGrows(d: nat, m: nat, n: nat)
    requires m <= n
    ensures d * m <= d * n
  {
  }

  lemma {:induction false} ValueOfLonger(a: string, x: string)
    requires AllDigits(a) && AllDigits(x)
    ensures AllDigits(a + x) && Value(a + x) >= Value(a)
  {
    if a == "" {
      assert a + x == x;
    } else {
      assert (a + x)[1..] == a[1..] + x && (a + x)[0] == a[0];
      ValueOfLonger(a[1..], x);
      Pow10Grows(|a| - 1, |a + x| - 1);
      ProductGrows(Digit(a[0]), Pow10(|a| - 1), Pow10(|a + x| - 1));
    }
  }

  /** A release comes before every name that goes on where it ends. */
  lemma PrefixIsOlder(p: string, s: string)
    requires s != ""
    ensures VersionLess(p, p + s)
  {
    assert Less(p, p + s) by {
      PrefixIsLess(p, s);
    }
    PrefixTokens(p, s, 0);
  }

  lemma {:induction false} PrefixIsLess(p: string, s: string)
    requires s != ""
    ensures Less(p, p + s)
  {
    if p != "" {
      assert (p + s)[1..] == p[1..] + s;
      PrefixIsLess(p[1..], s);
    }
  }

  lemma {:induction false} RunEndLonger(p: string, s: string, i: nat)
    requires i <= |p|
    ensures RunEnd(p, i) <= RunEnd(p + s, i)
    ensures RunEnd(p, i) < |p| ==> RunEnd(p + s, i) == RunEnd(p, i)
    decreases |p| - i
  {
    if i < |p| && IsDigit(p[i]) {
      RunEndLonger(p, s, i + 1);
    }
  }

  lemma {:induction false} PrefixTokens(p: string, s: string, i: nat)
    requires i <= |p| && s != ""
    ensures TokensLess(Tokens(p, i), Tokens(p + s, i)) || Tokens(p, i) == Tokens(p + s, i)
    decreases |p| - i
  {
    if i < |p| {
      if IsDigit(p[i]) {
        var e, f := RunEnd(p, i), RunEnd(p + s, i);
        RunEndLonger(p, s, i);
        if e < |p| {
          assert (p + s)[i..e] == p[i..e];
          PrefixTokens(p, s, e);
        } else {
          assert (p + s)[i..f] == p[i..e] + (p + s)[e..f];
          ValueOfLonger(p[i..e], (p + s)[e..f]);
          assert Tokens(p, e) == [];
          assert Tokens(p, i) == [Num(Value(p[i..e]))];
        }
      } else {
        PrefixTokens(p, s, i + 1);
      }
    }
  }

  /** What two names start with does not matter, unless it ends inside a digit run of one of them. */
  lemma CommonStartIsIgnored(p: string, x: string, y: string)
    requires EndsRun(p, x) && EndsRun(p, y)
    ensures VersionLess(p + x, p + y) <==> VersionLess(x, y)
  {
    TokensIn(p, x, 0);
    TokensIn(p, y, 0);
    SameStart(Tokens(p, 0), Tokens(x, 0), Tokens(y, 0));
    LessAfter(p, x, y);
  }

  lemma {:induction false} LessAfter(p: string, x: string, y: string)
    ensures Less(p + x, p + y) <==> Less(x, y)
  {
    if p == "" {
      assert p + x == x && p + y == y;
    } else {
      assert (p + x)[1..] == p[1..] + x && (p + y)[1..] == p[1..] + y;
      LessAfter(p[1..], x, y);
    }
  }

  /** Spellings of one number are told apart by nothing but the bytes, and only where all else is equal. */
  lemma SpellingDecidesLast(a: string, s: string, b: string, t: string)
    requires a != "" && b != "" && AllDigits(a) && AllDigits(b) && Value(a) == Value(b)
    requires (s == "" || !IsDigit(s[0])) && (t == "" || !IsDigit(t[0]))
    ensures s == t ==> (VersionLess(a + s, b + t) <==> Less(a + s, b + t))
    ensures Tokens(s, 0) != Tokens(t, 0) ==> (VersionLess(a + s, b + t) <==> VersionLess(s, t))
  {
    TokensOfNumber(a, s);
    TokensOfNumber(b, t);
    SameHead(Num(Value(a)), Tokens(s, 0), Tokens(t, 0));
    TokensIrreflexive(Tokens(s, 0));
  }

  // ---- the newest kernel of an image ------------------------------------------------

  const MODULES: string := "usr/lib/modules/"
  const INDEX: string := "/modules.dep"

  /** The release a module index file belongs to. */
  function ReleaseOf(name: string): Option<string> {
    if !HasSuffix(name, INDEX) then None
    else
      var rest := TrimSuffix(TrimPrefix(name, MODULES), INDEX);
      if rest != "" && '/' !in rest then Some(rest) else None
  }

  lemma ReleaseOfIndex(release: string)
    requires release != "" && '/' !in release
    ensures ReleaseOf(MODULES + release + INDEX) == Some(release)
  {
    var name := MODULES + release + INDEX;
    assert name[|name| - |INDEX|..] == INDEX && name[|MODULES|..] == release + INDEX;
    assert (release + INDEX)[|release|..] == INDEX && (release + INDEX)[..|release|] == release;
  }

  /** A bare name and the index name do not start below the modules directory. */
  lemma BareIndexIsElsewhere(release: string)
    requires '/' !in release
    ensures !HasPrefix(release + INDEX, MODULES)
  {
    var name := release + INDEX;
    if |release| < 3 {
      assert name[|release|] == '/' && MODULES[|release|] != '/';
    } else if |release| == 3 {
      assert name[4] == INDEX[1] && MODULES[4] == 'l';
    } else {
      assert name[3] == release[3] && MODULES[3] == '/';
    }
  }

  lemma BareIndex(release: string)
    requires release != "" && '/' !in release
    ensures ReleaseOf(release + INDEX) == Some(release)
  {
    var name := release + INDEX;
    BareIndexIsElsewhere(release);
    assert name[|name| - |INDEX|..] == INDEX && name[..|release|] == release;
  }

  /** The three spellings that name a release. */
  predicate Names(name: string, release: string) {
    || (release != "" && '/' !in release && (name == MODULES + release + INDEX || name == release + INDEX))
    || (release == INDEX[1..] && name == MODULES + release)
  }

  /**
   A file is the index of a release exactly when it is modules.dep right below a directory
   of that name; and one that lies in the modules directory itself passes for a release
   named modules.dep.
   */
  lemma ReleaseOfIff(name: string, release: string)
    ensures ReleaseOf(name) == Some(release) <==> Names(name, release)
  {
    if ReleaseOf(name) == Some(release) {
      OnlyThese(name, release);
    } else if Names(name, release) {
      TheseAreIndexes(name, release);
    }
  }

  lemma OnlyThese(name: string, release: string)
    requires ReleaseOf(name) == Some(release)
    ensures Names(name, release)
  {
    var cut := TrimPrefix(name, MODULES);
    assert name == MODULES + cut || name == cut;
    if HasSuffix(cut, INDEX) {
      assert cut == release + INDEX;
      assert MODULES + cut == MODULES + release + INDEX;
    } else {
      ShortIndex(name, cut);
    }
  }

  lemma TheseAreIndexes(name: string, release: string)
    requires Names(name, release)
    ensures ReleaseOf(name) == Some(release)
  {
    if release != "" && '/' !in release && name == MODULES + release + INDEX {
      ReleaseOfIndex(release);
    } else if release != "" && '/' !in release && name == release + INDEX {
      BareIndex(release);
    } else {
      assert name[|name| - |INDEX|..] == INDEX && name[|MODULES|..] == release;
      assert forall k :: 0 <= k < |release| ==> release[k] != '/';
    }
  }

  lemma SuffixOfRest(p: string, rest: string, suffix: string)
    ensures HasSuffix(p + rest, suffix) && |suffix| <= |rest| ==> HasSuffix(rest, suffix)
  {
    if |suffix| <= |rest| {
      assert (p + rest)[|p + rest| - |suffix|..] == rest[|rest| - |suffix|..];
    }
  }

  lemma ShortIndex(name: string, cut: string)
    requires name == MODULES + cut && HasSuffix(name, INDEX) && !HasSuffix(cut, INDEX)
    ensures cut == INDEX[1..]
  {
    var at := |name| - |INDEX|;
    SuffixOfRest(MODULES, cut, INDEX);
    assert forall k :: 0 <= k < |INDEX| ==> name[at + k] == INDEX[k];
    assert name[at] == '/' && name[at + 1] == 'm' && name[at + 8] == '.';
    assert MODULES[4] == 'l' && MODULES[15] == '/';
    assert forall k :: 0 <= k < |MODULES| ==> name[k] == MODULES[k];
    assert at == 15;
    assert cut == name[at + 1..];
  }

  ghost predicate IsRelease(names: set<string>, release: string) {
    exists name :: name in names && ReleaseOf(name) == Some(release)
  }

  /** A release of the image that every other one precedes. */
  ghost predicate IsNewest(names: set<string>, release: string) {
    && IsRelease(names, release)
    && forall other :: IsRelease(names, other) ==> other == release || VersionLess(other, release)
  }

  lemma NewestIsUnique(names: set<string>, a: string, b: string)
    requires IsNewest(names, a) && IsNewest(names, b)
    ensures a == b
  {
    VersionLessIsStrictTotalOrder(a, b, a);
  }

  ghost predicate Ascending(q: seq<string>) {
    forall i, j :: 0 <= i < j < |q| ==> !VersionLess(q[j], q[i])
  }

  /** The number of elements of q that do not come after x; they stand first. */
  method PlaceFor(q: seq<string>, x: string) returns (k: nat)
    requires Ascending(q)
    ensures k <= |q|
    ensures forall i :: 0 <= i < k ==> !VersionLess(x, q[i])
    ensures forall i :: k <= i < |q| ==> !VersionLess(q[i], x)
  {
    k := |q|;
    while k > 0
      invariant k <= |q|
      invariant forall i :: k <= i < |q| ==> !VersionLess(q[i], x)
    {
      var before := KernelVersionLess(x, q[k - 1]);
      if !before {
        forall i | 0 <= i < k
          ensures !VersionLess(x, q[i])
        {
          NotAfter(x, q, k - 1, i);
        }
        return;
      }
      VersionLessIsStrictTotalOrder(x, q[k - 1], x);
      k := k - 1;
    }
  }

  /** Put x where the order wants it. */
  method InsertVersion(q: seq<string>, x: string) returns (r: seq<string>)
    requires Ascending(q)
    ensures Ascending(r)
    ensures forall y :: y in r <==> y in q || y == x
  {
    var k := PlaceFor(q, x);
    VersionLessIsStrictTotalOrder(x, x, x);
    r := q[..k] + [x] + q[k..];
    assert q == q[..k] + q[k..];
  }

  lemma NotAfter(x: string, q: seq<string>, k: nat, i: nat)
    requires Ascending(q) && i <= k < |q| && !VersionLess(x, q[k])
    ensures !VersionLess(x, q[i])
  {
    if i < k && VersionLess(x, q[i]) {
      VersionLessIsStrictTotalOrder(x, q[i], q[k]);
      VersionLessIsStrictTotalOrder(q[i], q[k], x);
    }
  }

  /** The kernel chosen for an image is its newest release, in whatever order its files are listed. */
  method TargetKernel(names: set<string>) returns (version: Option<string>)
    ensures version.None? <==> forall release :: !IsRelease(names, release)
    ensures version.Some? ==> IsNewest(names, version.value)
  {
    var versions: seq<string> := [];
    var todo := names;
    while todo != {}
      invariant todo <= names && Ascending(versions)
      invariant forall release :: release in versions <==> IsRelease(names - todo, release)
      decreases todo
    {
      var name :| name in todo;
      var release := ReleaseOf(name);
      ReleasesGrow(names - todo, name);
      assert names - (todo - {name}) == names - todo + {name};
      if release.Some? {
        versions := InsertVersion(versions, release.value);
      }
      todo := todo - {name};
    }
    assert names - todo == names;
    if versions == [] {
      return None;
    }
    var last := versions[|versions| - 1];
    forall other | IsRelease(names, other)
      ensures other == last || VersionLess(other, last)
    {
      var k :| 0 <= k < |versions| && versions[k] == other;
      VersionLessIsStrictTotalOrder(other, last, other);
    }
    assert IsRelease(names, last);
    version := Some(last);
  }

  lemma ReleasesGrow(names: set<string>, name: string)
    ensures forall r :: IsRelease(names + {name}, r) <==> IsRelease(names, r) || ReleaseOf(name) == Some(r)
  {
  }
}
