/**
 * The string operations of Python and TypeScript that the interview
 * service relies on, restricted to ASCII where case or character classes
 * matter: `str.split`, `str.join`, `str.strip`, `str.lower`, `str.isdigit`,
 * `int(...)` of a digit string, `str(n)`, `in` on strings, and the
 * TypeScript `trim` and `toUpperCase`.
 */
module Text {

  // ---------------------------------------------------------------------
  // Characters
  // ---------------------------------------------------------------------

  /** `str.isdigit` on an ASCII character. */
  predicate IsDigit(c: char) { '0' <= c <= '9' }

  function DigitValue(c: char): (d: nat)
    requires IsDigit(c)
    ensures d < 10
  {
    (c as int) - ('0' as int)
  }

  function DigitChar(d: nat): (c: char)
    requires d < 10
    ensures IsDigit(c) && DigitValue(c) == d
  {
    ('0' as int + d) as char
  }

  /** `str.lower` on one character: only `A`..`Z` change. */
  function LowerChar(c: char): char {
    if 'A' <= c <= 'Z' then ((c as int) + 32) as char else c
  }

  /** `toUpperCase` on one character: only `a`..`z` change. */
  function UpperChar(c: char): char {
    if 'a' <= c <= 'z' then ((c as int) - 32) as char else c
  }

  /** The characters Python's `str.isspace` accepts among ASCII. */
  predicate PyIsSpace(c: char) {
    c == ' ' || '\t' <= c <= '\r' || '\U{1c}' <= c <= '\U{1f}'
  }

  /** The characters the TypeScript `trim` and the regular expression `\s` accept among ASCII. */
  predicate JsIsSpace(c: char) {
    c == ' ' || '\t' <= c <= '\r'
  }

  // ---------------------------------------------------------------------
  // Case mapping and search
  // ---------------------------------------------------------------------

  function Lower(s: string): (r: string)
    ensures |r| == |s|
    ensures forall i :: 0 <= i < |s| ==> r[i] == LowerChar(s[i])
  {
    seq(|s|, i requires 0 <= i < |s| => LowerChar(s[i]))
  }

  predicate IsPrefix(p: string, s: string) {
    |p| <= |s| && s[..|p|] == p
  }

  /** Python's `sub in s`. */
  predicate Contains(s: string, sub: string)
    decreases |s|
  {
    IsPrefix(sub, s) || (s != [] && Contains(s[1..], sub))
  }

  /** An occurrence at any offset makes `sub in s` true. */
  lemma {:induction false} ContainsAt(s: string, sub: string, i: nat)
    requires i <= |s| && IsPrefix(sub, s[i..])
    ensures Contains(s, sub)
    decreases i
  {
    if i > 0 {
      assert s[1..][i - 1..] == s[i..];
      ContainsAt(s[1..], sub, i - 1);
    }
  }

  /** A string containing `sub` contains every character of `sub`. */
  lemma {:induction false} ContainsChar(s: string, sub: string, k: nat)
    requires Contains(s, sub) && k < |sub|
    ensures sub[k] in s
    decreases |s|
  {
    if IsPrefix(sub, s) {
      assert s[k] == sub[k];
    } else {
      ContainsChar(s[1..], sub, k);
      assert sub[k] in s[1..];
    }
  }

  /** A substring survives lower-casing as the lower-cased substring. */
  lemma {:induction false} ContainsLower(s: string, sub: string)
    requires Contains(s, sub)
    ensures Contains(Lower(s), Lower(sub))
    decreases |s|
  {
    if IsPrefix(sub, s) {
      assert Lower(s)[..|sub|] == Lower(sub);
    } else {
      ContainsLower(s[1..], sub);
      assert Lower(s)[1..] == Lower(s[1..]);
    }
  }

  // ---------------------------------------------------------------------
  // Splitting and joining
  // ---------------------------------------------------------------------

  /** The index of the first `c` in `s`, or `|s|` when there is none. */
  function IndexOf(s: string, c: char): (i: nat)
    ensures i <= |s|
    ensures i < |s| ==> s[i] == c
    ensures forall j :: 0 <= j < i ==> s[j] != c
  {
    if s == [] then 0 else if s[0] == c then 0 else 1 + IndexOf(s[1..], c)
  }

  /** Python's `s.split(c)` for a one-character separator. */
  function Split(s: string, c: char): (parts: seq<string>)
    ensures |parts| >= 1
    decreases |s|
  {
    var i := IndexOf(s, c);
    if i == |s| then [s] else [s[..i]] + Split(s[i + 1..], c)
  }

  /** Python's `sep.join(xs)`. */
  function Join(sep: string, xs: seq<string>): string {
    if |xs| == 0 then ""
    else if |xs| == 1 then xs[0]
    else xs[0] + sep + Join(sep, xs[1..])
  }

  /** `[prefix + x for x in xs]`, the shape of the bullet lists. */
  function Prefixed(prefix: string, xs: seq<string>): (r: seq<string>)
    ensures |r| == |xs|
    ensures forall i :: 0 <= i < |xs| ==> r[i] == prefix + xs[i]
  {
    seq(|xs|, i requires 0 <= i < |xs| => prefix + xs[i])
  }

  predicate NoChar(xs: seq<string>, c: char) {
    forall i :: 0 <= i < |xs| ==> c !in xs[i]
  }

  /** A string without the separator splits to itself alone. */
  lemma SplitNone(s: string, c: char)
    requires c !in s
    ensures Split(s, c) == [s]
  {
    assert IndexOf(s, c) == |s|;
  }

  /** A string with the separator splits into at least two parts, the first of which ends before it. */
  lemma SplitSome(s: string, c: char)
    requires c in s
    ensures |Split(s, c)| >= 2
    ensures Split(s, c)[0] == s[..IndexOf(s, c)]
  {
    var i :| 0 <= i < |s| && s[i] == c;
    assert IndexOf(s, c) <= i;
  }

  /** The first occurrence of `c` after a stretch without it. */
  lemma IndexOfAfter(a: string, b: string, c: char)
    requires c !in a
    ensures IndexOf(a + [c] + b, c) == |a|
  {
    var s := a + [c] + b;
    assert s[|a|] == c;
    forall j | 0 <= j < |a| ensures s[j] != c {
      assert s[j] == a[j];
    }
  }

  /** No part of a split holds the separator. */
  lemma {:induction false} SplitPartsClean(s: string, c: char)
    ensures NoChar(Split(s, c), c)
    decreases |s|
  {
    var i := IndexOf(s, c);
    if i == |s| {
      assert Split(s, c) == [s];
      assert c !in s;
    } else {
      var head, rest := s[..i], Split(s[i + 1..], c);
      SplitPartsClean(s[i + 1..], c);
      assert Split(s, c) == [head] + rest;
      assert c !in head by {
        forall j | 0 <= j < |head| ensures head[j] != c {
          assert head[j] == s[j];
        }
      }
      forall k | 0 <= k < |[head] + rest| ensures c !in ([head] + rest)[k] {
        if k > 0 {
          assert ([head] + rest)[k] == rest[k - 1];
        }
      }
    }
  }

  /** An occurrence of `c` in `a` is still the first one once text follows `a`. */
  lemma IndexOfPrefix(a: string, t: string, c: char)
    requires IndexOf(a, c) < |a|
    ensures IndexOf(a + t, c) == IndexOf(a, c)
  {
    var i := IndexOf(a, c);
    assert (a + t)[i] == a[i];
    forall j | 0 <= j < i ensures (a + t)[j] != c {
      assert (a + t)[j] == a[j];
    }
  }

  /** A first part without the separator comes out whole, ahead of the parts of the rest. */
  lemma SplitFirst(a: string, b: string, c: char)
    requires c !in a
    ensures Split(a + [c] + b, c) == [a] + Split(b, c)
  {
    var s := a + [c] + b;
    IndexOfAfter(a, b, c);
    assert s[..|a|] == a && s[|a| + 1..] == b;
  }

  /** The split of a text with the separator before `b`, when `a` itself holds one at index `i`. */
  lemma SplitInside(a: string, b: string, c: char)
    requires IndexOf(a, c) < |a|
    ensures var i := IndexOf(a, c);
      && Split(a + [c] + b, c) == [a[..i]] + Split(a[i + 1..] + [c] + b, c)
      && Split(a, c) == [a[..i]] + Split(a[i + 1..], c)
  {
    var s := a + [c] + b;
    var i := IndexOf(a, c);
    IndexOfPrefix(a, [c] + b, c);
    assert s == a + ([c] + b);
    assert s[..i] == a[..i];
    assert s[i + 1..] == a[i + 1..] + [c] + b;
  }

  /** Splitting at a separator distributes over the text on either side of it. */
  lemma {:induction false} SplitConcat(a: string, b: string, c: char)
    ensures Split(a + [c] + b, c) == Split(a, c) + Split(b, c)
    decreases |a|
  {
    var i := IndexOf(a, c);
    if i == |a| {
      SplitFirst(a, b, c);
      SplitNone(a, c);
    } else {
      var head, rest := a[..i], a[i + 1..];
      SplitInside(a, b, c);
      SplitConcat(rest, b, c);
      assert [head] + (Split(rest, c) + Split(b, c)) == ([head] + Split(rest, c)) + Split(b, c);
    }
  }

  /** Splitting undoes joining, when no part holds the separator. */
  lemma {:induction false} SplitJoin(xs: seq<string>, c: char)
    requires |xs| >= 1 && NoChar(xs, c)
    ensures Split(Join([c], xs), c) == xs
    decreases |xs|
  {
    if |xs| == 1 {
      SplitNone(xs[0], c);
    } else {
      assert Join([c], xs) == xs[0] + [c] + Join([c], xs[1..]);
      SplitConcat(xs[0], Join([c], xs[1..]), c);
      SplitNone(xs[0], c);
      SplitJoin(xs[1..], c);
    }
  }

  /** Joining undoes splitting. */
  lemma {:induction false} JoinSplit(s: string, c: char)
    ensures Join([c], Split(s, c)) == s
    decreases |s|
  {
    var i := IndexOf(s, c);
    if i < |s| {
      var head, tail := s[..i], s[i + 1..];
      var rest := Split(tail, c);
      JoinSplit(tail, c);
      assert Split(s, c) == [head] + rest;
      assert |rest| >= 1;
      assert Join([c], [head] + rest) == head + [c] + Join([c], rest) by {
        assert ([head] + rest)[0] == head && ([head] + rest)[1..] == rest;
      }
      assert s == head + [c] + tail;
    } else {
      assert Split(s, c) == [s];
    }
  }

  /** Bullet lines `prefix + x` stay one line each when neither the prefix nor any `x` holds a newline. */
  lemma PrefixedLines(prefix: string, xs: seq<string>)
    requires |xs| >= 1 && '\n' !in prefix && NoChar(xs, '\n')
    ensures Split(Join("\n", Prefixed(prefix, xs)), '\n') == Prefixed(prefix, xs)
  {
    var ps := Prefixed(prefix, xs);
    forall i | 0 <= i < |ps| ensures '\n' !in ps[i] {
      assert ps[i] == prefix + xs[i];
    }
    SplitJoin(ps, '\n');
  }

  // ---------------------------------------------------------------------
  // Stripping
  // ---------------------------------------------------------------------

  /** Drops the leading characters `isSpace` accepts. */
  function StripLeft(s: string, isSpace: char -> bool): (r: string)
    ensures |r| <= |s| && r == s[|s| - |r|..]
    ensures r != [] ==> !isSpace(r[0])
    ensures forall i :: 0 <= i < |s| - |r| ==> isSpace(s[i])
    decreases |s|
  {
    if s != [] && isSpace(s[0]) then StripLeft(s[1..], isSpace) else s
  }

  /** Drops the trailing characters `isSpace` accepts. */
  function StripRight(s: string, isSpace: char -> bool): (r: string)
    ensures |r| <= |s| && r == s[..|r|]
    ensures r != [] ==> !isSpace(r[|r| - 1])
    ensures forall i :: |r| <= i < |s| ==> isSpace(s[i])
    decreases |s|
  {
    if s != [] && isSpace(s[|s| - 1]) then StripRight(s[..|s| - 1], isSpace) else s
  }

  /** Python's `s.strip()`. */
  function PyStrip(s: string): string {
    StripRight(StripLeft(s, PyIsSpace), PyIsSpace)
  }

  /** TypeScript's `s.trim()`. */
  function JsTrim(s: string): string {
    StripRight(StripLeft(s, JsIsSpace), JsIsSpace)
  }

  /** Stripping is the identity on a string that neither starts nor ends with white space. */
  lemma StripClean(s: string, isSpace: char -> bool)
    requires s != [] ==> !isSpace(s[0]) && !isSpace(s[|s| - 1])
    ensures StripRight(StripLeft(s, isSpace), isSpace) == s
  {
  }

  /** A stripped string neither starts nor ends with white space, so stripping it again changes nothing. */
  lemma StripIdempotent(s: string, isSpace: char -> bool)
    ensures var r := StripRight(StripLeft(s, isSpace), isSpace);
      && (r != [] ==> !isSpace(r[0]) && !isSpace(r[|r| - 1]))
      && StripRight(StripLeft(r, isSpace), isSpace) == r
  {
    var l := StripLeft(s, isSpace);
    var r := StripRight(l, isSpace);
    if r != [] {
      assert r[0] == l[0];
    }
    StripClean(r, isSpace);
  }

  /** Stripping the left of a white-space lead followed by a non-space drops exactly the lead. */
  lemma {:induction false} StripLeftLead(lead: string, t: string, isSpace: char -> bool)
    requires forall i :: 0 <= i < |lead| ==> isSpace(lead[i])
    requires t != [] && !isSpace(t[0])
    ensures StripLeft(lead + t, isSpace) == t
    decreases |lead|
  {
    if lead == [] {
      assert lead + t == t;
    } else {
      assert (lead + t)[0] == lead[0];
      assert (lead + t)[1..] == lead[1..] + t;
      StripLeftLead(lead[1..], t, isSpace);
    }
  }

  /** Stripping the right keeps a prefix that ends in a non-space character. */
  lemma StripRightKeepsPrefix(p: string, rest: string, isSpace: char -> bool)
    requires p != [] && !isSpace(p[|p| - 1])
    ensures IsPrefix(p, StripRight(p + rest, isSpace))
  {
    var l := p + rest;
    assert l[|p| - 1] == p[|p| - 1];
    var r := StripRight(l, isSpace);
    assert |p| <= |r|;
    assert r[..|p|] == l[..|p|] == p;
  }

  /** Stripping keeps the prefix up to any character that is not white space, after a white-space lead. */
  lemma StripKeepsPrefix(lead: string, p: string, rest: string, isSpace: char -> bool)
    requires forall i :: 0 <= i < |lead| ==> isSpace(lead[i])
    requires p != [] && !isSpace(p[0]) && !isSpace(p[|p| - 1])
    ensures IsPrefix(p, StripRight(StripLeft(lead + p + rest, isSpace), isSpace))
  {
    var l := p + rest;
    assert lead + p + rest == lead + l;
    assert l[0] == p[0];
    StripLeftLead(lead, l, isSpace);
    StripRightKeepsPrefix(p, rest, isSpace);
  }

  // ---------------------------------------------------------------------
  // Decimal numerals
  // ---------------------------------------------------------------------

  predicate AllDigits(s: string) {
    forall i :: 0 <= i < |s| ==> IsDigit(s[i])
  }

  /** `''.join(filter(str.isdigit, s))`: the digits of `s`, in order. */
  function Digits(s: string): (r: string)
    ensures AllDigits(r)
    ensures |r| <= |s|
    ensures AllDigits(s) ==> r == s
  {
    if s == [] then [] else (if IsDigit(s[0]) then [s[0]] else []) + Digits(s[1..])
  }

  /** `int(s)` for a non-empty digit string (leading zeros allowed). */
  function DecimalValue(s: string): nat
    requires AllDigits(s)
  {
    if s == [] then 0 else 10 * DecimalValue(s[..|s| - 1]) + DigitValue(s[|s| - 1])
  }

  /** `str(n)` for a natural number. */
  function NatToString(n: nat): (s: string)
    ensures AllDigits(s) && |s| >= 1
  {
    if n < 10 then [DigitChar(n)] else NatToString(n / 10) + [DigitChar(n % 10)]
  }

  /** `str(i)` (also `f"{i}"` and a TypeScript template) for any integer. */
  function IntToString(i: int): string {
    if i < 0 then "-" + NatToString(-i) else NatToString(i)
  }

  /** Reading back a printed number gives the number. */
  lemma {:induction false} DecimalOfNatToString(n: nat)
    ensures DecimalValue(NatToString(n)) == n
  {
    if n >= 10 {
      var s := NatToString(n);
      assert s[..|s| - 1] == NatToString(n / 10);
      DecimalOfNatToString(n / 10);
    }
  }

  /** Printing is injective, so distinct numbers give distinct numerals. */
  lemma NatToStringInjective(m: nat, n: nat)
    requires NatToString(m) == NatToString(n)
    ensures m == n
  {
    DecimalOfNatToString(m);
    DecimalOfNatToString(n);
  }

  /** A separator character that is not a digit cannot occur in a printed number. */
  lemma NoCharInNumeral(n: nat, c: char)
    requires !IsDigit(c)
    ensures c !in NatToString(n)
  {
    var s := NatToString(n);
    forall k | 0 <= k < |s| ensures s[k] != c {
      assert IsDigit(s[k]);
    }
  }

  /** Filtering digits from non-digits followed by a numeral gives the numeral. */
  lemma {:induction false} DigitsOfPaddedNumeral(pad: string, s: string)
    requires forall i :: 0 <= i < |pad| ==> !IsDigit(pad[i])
    requires AllDigits(s)
    ensures Digits(pad + s) == s
    decreases |pad|
  {
    if pad == [] {
      assert pad + s == s;
    } else {
      assert (pad + s)[1..] == pad[1..] + s;
      DigitsOfPaddedNumeral(pad[1..], s);
    }
  }
}
