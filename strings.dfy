/**
 * Character classes and string operations that the scrapers take from
 * JavaScript: `trim`, `toLowerCase`, `includes`, `split`, the `||` default
 * on strings, and the whitespace normaliser `norm` of the StarNow scraper.
 */
module Strings {
  import opened Wrappers

  /** JavaScript's `\s`: the WhiteSpace and LineTerminator characters. */
  predicate IsSpace(c: char) {
    || c == ' ' || c == '\t' || c == '\n' || c == '\r'
    || c == '\U{000B}' || c == '\U{000C}' || c == '\U{00A0}' || c == '\U{1680}'
    || ('\U{2000}' <= c <= '\U{200A}')
    || c == '\U{2028}' || c == '\U{2029}' || c == '\U{202F}' || c == '\U{205F}'
    || c == '\U{3000}' || c == '\U{FEFF}'
  }

  /** The characters that `.` does not match in a JavaScript regular expression. */
  predicate IsLineTerminator(c: char) {
    c == '\n' || c == '\r' || c == '\U{2028}' || c == '\U{2029}'
  }

  predicate IsDigit(c: char) { '0' <= c <= '9' }

  predicate IsUpper(c: char) { 'A' <= c <= 'Z' }

  predicate IsLower(c: char) { 'a' <= c <= 'z' }

  predicate IsLetter(c: char) { IsUpper(c) || IsLower(c) }

  /** JavaScript's `\w`, the characters that decide where `\b` lies. */
  predicate IsWordChar(c: char) { IsLetter(c) || IsDigit(c) || c == '_' }

  /** `s` holds no whitespace character. */
  predicate NoSpace(s: string) {
    forall i :: 0 <= i < |s| ==> !IsSpace(s[i])
  }

  predicate AllSpace(s: string) {
    forall i :: 0 <= i < |s| ==> IsSpace(s[i])
  }

  function DigitValue(c: char): (d: nat)
    requires IsDigit(c)
    ensures d < 10
  {
    c as int - '0' as int
  }

  /** ASCII case folding, as `toLowerCase` does for the letters A to Z. */
  function LowerChar(c: char): (l: char)
    ensures IsUpper(c) ==> IsLower(l) && l as int == c as int + 32
    ensures !IsUpper(c) ==> l == c
  {
    if IsUpper(c) then (c as int + 32) as char else c
  }

  function ToLower(s: string): (r: string)
    ensures |r| == |s|
    ensures forall i :: 0 <= i < |s| ==> r[i] == LowerChar(s[i])
  {
    seq(|s|, i requires 0 <= i < |s| => LowerChar(s[i]))
  }

  /** Lower-casing a slice is slicing the lower-cased text. */
  lemma ToLowerSlice(s: string, i: nat, j: nat)
    requires i <= j <= |s|
    ensures ToLower(s[i..j]) == ToLower(s)[i..j]
  {
    var a := ToLower(s[i..j]);
    var b := ToLower(s)[i..j];
    forall m | 0 <= m < j - i ensures a[m] == b[m] {
      assert s[i..j][m] == s[i + m];
    }
  }

  /** Lower-casing text with no capital letters leaves it unchanged. */
  lemma ToLowerOfLower(s: string)
    requires forall i :: 0 <= i < |s| ==> !IsUpper(s[i])
    ensures ToLower(s) == s
  {
  }

  /** JavaScript's `a || b` on two strings: the empty string is falsy. */
  function OrElse(a: string, b: string): (r: string)
    ensures a != "" ==> r == a
    ensures a == "" ==> r == b
  {
    if a != "" then a else b
  }

  // ---------- trimming ----------

  /** The number of whitespace characters at the start of `s`. */
  function LeadingSpace(s: string): (n: nat)
    ensures n <= |s|
    ensures forall i :: 0 <= i < n ==> IsSpace(s[i])
    ensures n < |s| ==> !IsSpace(s[n])
  {
    if |s| > 0 && IsSpace(s[0]) then 1 + LeadingSpace(s[1..]) else 0
  }

  /** The number of whitespace characters at the end of `s`. */
  function TrailingSpace(s: string): (n: nat)
    ensures n <= |s|
    ensures forall i :: |s| - n <= i < |s| ==> IsSpace(s[i])
    ensures n < |s| ==> !IsSpace(s[|s| - 1 - n])
  {
    if |s| > 0 && IsSpace(s[|s| - 1]) then 1 + TrailingSpace(s[..|s| - 1]) else 0
  }

  function TrimStart(s: string): (r: string)
    ensures r == [] || !IsSpace(r[0])
  {
    s[LeadingSpace(s)..]
  }

  /**
   * JavaScript's `trim`: the result is the slice of `s` that starts at the
   * first non-space character and ends after the last one.
   */
  /** Neither end of `s` is white space. */
  predicate Trimmed(s: string) {
    s == [] || (!IsSpace(s[0]) && !IsSpace(s[|s| - 1]))
  }

  function Trim(s: string): (r: string)
    ensures Trimmed(r)
    ensures LeadingSpace(s) + |r| <= |s| && r == s[LeadingSpace(s)..LeadingSpace(s) + |r|]
    ensures forall i :: LeadingSpace(s) + |r| <= i < |s| ==> IsSpace(s[i])
  {
    var t := s[LeadingSpace(s)..];
    t[..|t| - TrailingSpace(t)]
  }

  /** Text with exactly one space at each end loses just those two. */
  lemma TrimOneSpaceEachEnd(s: string)
    requires |s| >= 3 && IsSpace(s[0]) && !IsSpace(s[1]) && IsSpace(s[|s| - 1]) && !IsSpace(s[|s| - 2])
    ensures Trim(s) == s[1..|s| - 1]
  {
    assert LeadingSpace(s[1..]) == 0;
    var t := s[1..];
    assert t[..|t| - 1][..|t| - 2] == t[..|t| - 2];
    assert TrailingSpace(t[..|t| - 1]) == 0;
    assert TrailingSpace(t) == 1;
  }

  lemma TrimEmptyIff(s: string)
    ensures Trim(s) == "" <==> AllSpace(s)
  {
    if Trim(s) != "" {
      assert !IsSpace(s[LeadingSpace(s)]);
    }
  }

  /** A string that starts and ends with a non-space character is its own trim. */
  lemma TrimOfTrimmed(s: string)
    requires Trimmed(s)
    ensures Trim(s) == s
  {
    assert LeadingSpace(s) == 0;
  }

  /** "N/A", the scrapers' placeholder, is its own trimmed form and holds no line break. */
  lemma NotApplicableTrimmed()
    ensures Trim("N/A") == "N/A"
    ensures forall k :: 0 <= k < |"N/A"| ==> !IsLineTerminator("N/A"[k])
  {
    TrimOfTrimmed("N/A");
  }

  lemma TrimIdempotent(s: string)
    ensures Trim(Trim(s)) == Trim(s)
  {
    TrimOfTrimmed(Trim(s));
  }

  /** Trimming text of one character class leaves text of that class. */
  lemma TrimKeepsClass(s: string, inClass: char -> bool)
    requires forall k :: 0 <= k < |s| ==> inClass(s[k])
    ensures forall k :: 0 <= k < |Trim(s)| ==> inClass(Trim(s)[k])
  {
    var t := Trim(s);
    forall k | 0 <= k < |t| ensures inClass(t[k]) {
      assert t[k] == s[LeadingSpace(s) + k];
    }
  }

  // ---------- searching ----------

  predicate OccursAt(s: string, sub: string, i: nat) {
    i + |sub| <= |s| && s[i..i + |sub|] == sub
  }

  /** The leftmost position at or after `from` where `sub` occurs. */
  function IndexOfFrom(s: string, sub: string, from: nat): (r: Option<nat>)
    ensures r.Some? ==> from <= r.value && OccursAt(s, sub, r.value)
    ensures r.Some? ==> forall j :: from <= j < r.value ==> !OccursAt(s, sub, j)
    ensures r.None? ==> forall j :: from <= j ==> !OccursAt(s, sub, j)
    decreases |s| - from
  {
    if from + |sub| > |s| then None
    else if OccursAt(s, sub, from) then Some(from)
    else IndexOfFrom(s, sub, from + 1)
  }

  function IndexOf(s: string, sub: string): (r: Option<nat>)
    ensures r.Some? ==> OccursAt(s, sub, r.value) && forall j :: 0 <= j < r.value ==> !OccursAt(s, sub, j)
    ensures r.None? ==> forall j :: !OccursAt(s, sub, j)
  {
    IndexOfFrom(s, sub, 0)
  }

  /** JavaScript's `s.includes(sub)`. */
  predicate Contains(s: string, sub: string) {
    IndexOf(s, sub).Some?
  }

  lemma ContainsIff(s: string, sub: string)
    ensures Contains(s, sub) <==> exists j :: OccursAt(s, sub, j)
  {
  }

  /** A text that lacks one of the characters of `sub` holds no occurrence of it. */
  lemma NotOccursWithoutChar(s: string, sub: string, c: char)
    requires c in sub && c !in s
    ensures forall j :: !OccursAt(s, sub, j)
  {
    var k :| 0 <= k < |sub| && sub[k] == c;
    forall j: nat | j + |sub| <= |s| ensures !OccursAt(s, sub, j) {
      assert s[j..j + |sub|][k] == s[j + k];
    }
  }

  /** A test with a case-insensitive regular expression that is a literal word, such as `/join now/i`. */
  predicate ContainsIgnoringCase(s: string, sub: string) {
    Contains(ToLower(s), ToLower(sub))
  }

  predicate ContainsAnyIgnoringCase(s: string, subs: seq<string>) {
    exists k :: 0 <= k < |subs| && ContainsIgnoringCase(s, subs[k])
  }

  /** The position of the first `c` in `s`, or `|s|` when there is none. */
  function FirstIndexOfChar(s: string, c: char): (i: nat)
    ensures i <= |s|
    ensures i < |s| ==> s[i] == c
    ensures c !in s[..i]
  {
    if s == [] then 0
    else if s[0] == c then 0
    else 1 + FirstIndexOfChar(s[1..], c)
  }

  // ---------- splitting ----------

  /** JavaScript's `s.split(sep)` for a one-character separator. */
  function Split(s: string, sep: char): (parts: seq<string>)
    ensures |parts| >= 1
    ensures forall k :: 0 <= k < |parts| ==> sep !in parts[k]
    ensures parts[0] == s[..FirstIndexOfChar(s, sep)]
    ensures Join(parts, sep) == s
    decreases |s|
  {
    var i := FirstIndexOfChar(s, sep);
    if i == |s| then [s]
    else
      var rest := Split(s[i + 1..], sep);
      assert s == s[..i] + [sep] + s[i + 1..];
      [s[..i]] + rest
  }

  /** Splitting text that starts with a piece without the separator and then the separator. */
  lemma SplitAfterPiece(a: string, sep: char, rest: string)
    requires sep !in a
    ensures Split(a + [sep] + rest, sep) == [a] + Split(rest, sep)
  {
    var s := a + [sep] + rest;
    assert s[|a|] == sep && s[..|a|] == a;
    assert FirstIndexOfChar(s, sep) == |a|;
    assert s[|a| + 1..] == rest;
  }

  function Join(parts: seq<string>, sep: char): string {
    if |parts| == 0 then ""
    else if |parts| == 1 then parts[0]
    else parts[0] + [sep] + Join(parts[1..], sep)
  }

  /** `s.split(sep)[0]`: the text before the first separator, e.g. a link without its query string. */
  function BeforeFirst(s: string, sep: char): (r: string)
    ensures sep !in r
    ensures r <= s
    ensures sep !in s ==> r == s
    ensures r == s || (|r| < |s| && s[|r|] == sep)
  {
    Split(s, sep)[0]
  }

  // ---------- whitespace normalisation ----------

  /** Replaces every run of `\s` characters by one space. */
  function Collapse(s: string): (r: string)
    ensures |r| <= |s|
    ensures r == [] <==> s == []
    ensures r != [] ==> (IsSpace(r[0]) <==> IsSpace(s[0]))
    ensures r != [] ==> (IsSpace(r[|r| - 1]) <==> IsSpace(s[|s| - 1]))
    ensures forall i :: 0 <= i < |r| && IsSpace(r[i]) ==> r[i] == ' '
    ensures forall i :: 0 <= i < |r| - 1 && IsSpace(r[i]) ==> !IsSpace(r[i + 1])
    ensures AllSpace(r) <==> AllSpace(s)
    decreases |s|
  {
    if s == [] then []
    else if IsSpace(s[0]) then
      var rest := TrimStart(s);
      AllSpaceTrimStart(s);
      var cr := Collapse(rest);
      AllSpaceCons(' ', cr);
      [' '] + cr
    else
      var rest := Collapse(s[1..]);
      AllSpaceCons(s[0], s[1..]);
      AllSpaceCons(s[0], rest);
      [s[0]] + rest
  }

  /** Text is all whitespace exactly when nothing is left after its leading whitespace. */
  lemma AllSpaceTrimStart(s: string)
    ensures AllSpace(s) <==> TrimStart(s) == []
  {
    if TrimStart(s) != [] {
      assert s[LeadingSpace(s)] == TrimStart(s)[0];
    }
  }

  lemma AllSpaceCons(c: char, t: string)
    ensures AllSpace([c] + t) <==> IsSpace(c) && AllSpace(t)
  {
    var s := [c] + t;
    if AllSpace(s) {
      assert s[0] == c;
      forall j | 0 <= j < |t| ensures IsSpace(t[j]) {
        assert t[j] == s[j + 1];
      }
    }
    if IsSpace(c) && AllSpace(t) {
      forall j | 0 <= j < |s| ensures IsSpace(s[j]) {
        if j > 0 { assert s[j] == t[j - 1]; }
      }
    }
  }

  /**
   * The StarNow helper `norm`: no-break spaces become spaces, every
   * whitespace run becomes one space, and the ends are trimmed.
   */
  function Norm(s: string): (r: string)
    ensures r == "" <==> AllSpace(s)
    ensures Normalized(r)
    ensures NonSpaceChars(r) == NonSpaceChars(s)
    ensures r == Join(Words(s), ' ')
  {
    CollapseTrimJoinsWords(s);
    var c := Collapse(s);
    TrimEmptyIff(c);
    TrimOfSingleSpaces(c);
    CollapseKeepsNonSpace(s);
    TrimKeepsNonSpace(c);
    Trim(c)
  }

  /** The characters of `s` that are not whitespace, in order. */
  function NonSpaceChars(s: string): (r: string)
    ensures forall i :: 0 <= i < |r| ==> !IsSpace(r[i])
  {
    if s == [] then []
    else if IsSpace(s[0]) then NonSpaceChars(s[1..])
    else [s[0]] + NonSpaceChars(s[1..])
  }

  lemma {:induction false} NonSpaceCharsAppend(a: string, b: string)
    ensures NonSpaceChars(a + b) == NonSpaceChars(a) + NonSpaceChars(b)
  {
    if a == [] {
      assert a + b == b;
    } else {
      assert (a + b)[1..] == a[1..] + b;
      NonSpaceCharsAppend(a[1..], b);
    }
  }

  lemma {:induction false} NonSpaceCharsOfSpace(s: string)
    requires AllSpace(s)
    ensures NonSpaceChars(s) == []
  {
    if s != [] {
      NonSpaceCharsOfSpace(s[1..]);
    }
  }

  /** Leading whitespace holds no other character. */
  lemma TrimStartKeepsNonSpace(s: string)
    ensures NonSpaceChars(TrimStart(s)) == NonSpaceChars(s)
  {
    var n := LeadingSpace(s);
    assert s == s[..n] + s[n..];
    NonSpaceCharsAppend(s[..n], s[n..]);
    NonSpaceCharsOfSpace(s[..n]);
  }

  /** Collapsing whitespace runs keeps every other character, in order. */
  lemma {:induction false} CollapseKeepsNonSpace(s: string)
    ensures NonSpaceChars(Collapse(s)) == NonSpaceChars(s)
    decreases |s|
  {
    if s != [] {
      if IsSpace(s[0]) {
        var rest := TrimStart(s);
        CollapseKeepsNonSpace(rest);
        TrimStartKeepsNonSpace(s);
        assert ([' '] + Collapse(rest))[1..] == Collapse(rest);
      } else {
        CollapseKeepsNonSpace(s[1..]);
        assert ([s[0]] + Collapse(s[1..]))[1..] == Collapse(s[1..]);
      }
    }
  }

  /** A text is its head, middle and tail put back together. */
  lemma ThreeSlices(s: string, a: nat, e: nat)
    requires a <= e <= |s|
    ensures s == s[..a] + s[a..e] + s[e..]
  {
    assert s[..e] == s[..a] + s[a..e];
    assert s == s[..e] + s[e..];
  }

  /** Trimming removes whitespace only. */
  lemma TrimKeepsNonSpace(s: string)
    ensures NonSpaceChars(Trim(s)) == NonSpaceChars(s)
  {
    var a := LeadingSpace(s);
    var r := Trim(s);
    var e := a + |r|;
    ThreeSlices(s, a, e);
    NonSpaceCharsAppend(s[..a] + r, s[e..]);
    NonSpaceCharsAppend(s[..a], r);
    NonSpaceCharsOfSpace(s[..a]);
    NonSpaceCharsOfSpace(s[e..]);
  }

  /** Text as `norm` leaves it: no space at either end, and every space a single ' ' before a non-space. */
  predicate Normalized(c: string) {
    Trimmed(c)
    && forall i :: 0 <= i < |c| && IsSpace(c[i]) ==> c[i] == ' ' && !IsSpace(c[i + 1])
  }

  /** Trimming text whose spaces are single ' ' characters normalises it. */
  lemma TrimOfSingleSpaces(c: string)
    requires SingleSpaces(c)
    ensures Normalized(Trim(c))
  {
    var r := Trim(c);
    var a := LeadingSpace(c);
    forall i | 0 <= i < |r| && IsSpace(r[i]) ensures r[i] == ' ' && !IsSpace(r[i + 1]) {
      assert r[i] == c[a + i];
      if i + 1 < |r| { assert r[i + 1] == c[a + i + 1]; }
    }
  }

  /** Every whitespace character is a ' ' that no other whitespace follows. */
  predicate SingleSpaces(s: string) {
    forall i :: 0 <= i < |s| && IsSpace(s[i]) ==> s[i] == ' ' && (i + 1 == |s| || !IsSpace(s[i + 1]))
  }

  lemma SingleSpacesTail(s: string)
    requires s != [] && SingleSpaces(s)
    ensures SingleSpaces(s[1..])
  {
    var t := s[1..];
    forall i | 0 <= i < |t| && IsSpace(t[i]) ensures t[i] == ' ' && (i + 1 == |t| || !IsSpace(t[i + 1])) {
      assert t[i] == s[i + 1];
      if i + 1 < |t| {
        assert t[i + 1] == s[i + 2];
      }
    }
  }

  /** A single space before a non-space collapses to itself. */
  lemma CollapseSingleSpace(s: string)
    requires s != [] && IsSpace(s[0]) && (|s| == 1 || !IsSpace(s[1]))
    ensures Collapse(s) == [' '] + Collapse(s[1..])
  {
    assert LeadingSpace(s[1..]) == 0;
    assert TrimStart(s) == s[1..];
  }

  lemma CollapseNonSpace(s: string)
    requires s != [] && !IsSpace(s[0])
    ensures Collapse(s) == [s[0]] + Collapse(s[1..])
  {
  }

  /** Collapsing text whose spaces are single ' ' characters changes nothing. */
  lemma {:induction false} CollapseOfCollapsed(s: string)
    requires SingleSpaces(s)
    ensures Collapse(s) == s
    decreases |s|
  {
    if s != [] {
      SingleSpacesTail(s);
      CollapseOfCollapsed(s[1..]);
      if IsSpace(s[0]) {
        CollapseSingleSpace(s);
      } else {
        CollapseNonSpace(s);
      }
      assert s == [s[0]] + s[1..];
    }
  }

  /** `norm` leaves normalised text as it is. */
  lemma NormOfNormalized(s: string)
    requires Normalized(s)
    ensures Norm(s) == s
  {
    CollapseOfCollapsed(s);
    TrimOfTrimmed(s);
  }

  /** `norm` is idempotent. */
  lemma NormIdempotent(t: string)
    ensures Norm(Norm(t)) == Norm(t)
  {
    NormOfNormalized(Norm(t));
  }

  // ---------- words ----------

  /** The number of non-space characters at the start of `s`. */
  function WordLength(s: string): (n: nat)
    ensures n <= |s|
    ensures forall i :: 0 <= i < n ==> !IsSpace(s[i])
    ensures n < |s| ==> IsSpace(s[n])
  {
    if |s| > 0 && !IsSpace(s[0]) then 1 + WordLength(s[1..]) else 0
  }

  /** The words of `s`: its maximal runs of non-space characters, in order. */
  function Words(s: string): (ws: seq<string>)
    ensures forall k :: 0 <= k < |ws| ==> ws[k] != []
    decreases |s|
  {
    var t := TrimStart(s);
    if t == [] then []
    else
      var n := WordLength(t);
      [t[..n]] + Words(t[n..])
  }

  /** A word holds no space. */
  lemma {:induction false} WordsHaveNoSpace(s: string, k: nat)
    requires k < |Words(s)|
    ensures NoSpace(Words(s)[k])
    decreases |s|
  {
    if k == 0 {
      FirstWordHasNoSpace(s);
    } else {
      var rest := WordsAfterFirst(s);
      WordsHaveNoSpace(rest, k - 1);
      assert Words(s)[k] == Words(s)[1..][k - 1];
    }
  }

  /** The words after the first are the words of a shorter text. */
  lemma WordsAfterFirst(s: string) returns (rest: string)
    requires Words(s) != []
    ensures |rest| < |s| && Words(rest) == Words(s)[1..]
  {
    var n := WordsStep(s);
    rest := TrimStart(s)[n..];
  }

  /** The first word holds no space. */
  lemma FirstWordHasNoSpace(s: string)
    requires Words(s) != []
    ensures NoSpace(Words(s)[0])
  {
    var n := WordsStep(s);
    assert Words(s)[0] == TrimStart(s)[..n];
  }

  /** One step of `Words`: the first word, of length `n`, then the words of the rest. */
  lemma WordsStep(s: string) returns (n: nat)
    requires Words(s) != []
    ensures n == WordLength(TrimStart(s)) && 0 < n <= |TrimStart(s)| <= |s|
    ensures Words(s) == [TrimStart(s)[..n]] + Words(TrimStart(s)[n..])
  {
    n := WordLength(TrimStart(s));
  }

  lemma SplitAt<T>(t: seq<T>, n: nat)
    requires n <= |t|
    ensures t == t[..n] + t[n..]
  {
  }

  /** A non-empty prefix splits into its head and tail across a concatenation. */
  lemma HeadThenTail<T>(w: seq<T>, x: seq<T>)
    requires w != []
    ensures (w + x)[0] == w[0] && (w + x)[1..] == w[1..] + x
    ensures [w[0]] + (w[1..] + x) == w + x
  {
  }

  lemma ConsIndex<T>(x: T, xs: seq<T>, k: nat)
    requires 0 < k <= |xs|
    ensures ([x] + xs)[k] == xs[k - 1]
  {
  }

  /** A text and its leading spaces removed have the same words. */
  lemma WordsTrimStart(s: string)
    ensures Words(TrimStart(s)) == Words(s)
  {
    var t := TrimStart(s);
    assert LeadingSpace(t) == 0;
    assert TrimStart(t) == t;
  }

  /** Text of spaces has no words. */
  lemma WordsOfSpace(s: string)
    requires AllSpace(s)
    ensures Words(s) == []
  {
    AllSpaceTrimStart(s);
  }

  /** Collapsing leaves a non-space prefix in place. */
  lemma {:induction false} CollapseWord(w: string, x: string)
    requires forall i :: 0 <= i < |w| ==> !IsSpace(w[i])
    ensures Collapse(w + x) == w + Collapse(x)
    decreases |w|
  {
    if w == [] {
      assert w + x == x;
    } else {
      var s := w + x;
      HeadThenTail(w, x);
      CollapseNonSpace(s);
      CollapseWord(w[1..], x);
      HeadThenTail(w, Collapse(x));
    }
  }

  /** Collapsing replaces the leading spaces of a text by at most one space. */
  lemma CollapseLeading(s: string)
    ensures Collapse(s) == (if s != [] && IsSpace(s[0]) then [' '] else []) + Collapse(TrimStart(s))
  {
    if s != [] && !IsSpace(s[0]) {
      assert LeadingSpace(s) == 0;
      assert TrimStart(s) == s;
    }
  }

  /** The trim of a text is its slice from `a` to `e` when only spaces lie outside it and it is trimmed. */
  lemma TrimSlice(s: string, a: nat, e: nat)
    requires a < e <= |s|
    requires Trimmed(s[a..e])
    requires forall i :: 0 <= i < a ==> IsSpace(s[i])
    requires forall i :: e <= i < |s| ==> IsSpace(s[i])
    ensures Trim(s) == s[a..e]
  {
    assert s[a..e][0] == s[a] && s[a..e][e - a - 1] == s[e - 1];
    var l := LeadingSpace(s);
    assert l == a;
    var r := Trim(s);
    assert !IsSpace(s[a]);
    assert r[|r| - 1] == s[a + |r| - 1];
    assert a + |r| == e;
  }

  /** A word followed by spaces trims to the word. */
  lemma TrimWordThenSpace(lead: string, w: string, sp: string)
    requires AllSpace(lead) && AllSpace(sp)
    requires w != [] && forall i :: 0 <= i < |w| ==> !IsSpace(w[i])
    ensures Trim(lead + w + sp) == w
  {
    var s := lead + w + sp;
    assert s[|lead|..|lead| + |w|] == w;
    forall i | 0 <= i < |lead| ensures IsSpace(s[i]) { assert s[i] == lead[i]; }
    forall i | |lead| + |w| <= i < |s| ensures IsSpace(s[i]) { assert s[i] == sp[i - |lead| - |w|]; }
    TrimSlice(s, |lead|, |lead| + |w|);
  }

  /** A word, a space and a text that starts with a non-space trim to the word, the space and the text's trim. */
  lemma TrimWordSpaceText(lead: string, w: string, c: string)
    requires AllSpace(lead)
    requires w != [] && forall i :: 0 <= i < |w| ==> !IsSpace(w[i])
    requires c != [] && !IsSpace(c[0])
    ensures Trim(lead + w + [' '] + c) == w + [' '] + Trim(c)
  {
    var s := lead + w + [' '] + c;
    var a := |lead|;
    var tc := Trim(c);
    var b := a + |w| + 1;
    assert LeadingSpace(c) == 0;
    var e := b + |tc|;
    assert tc != [] by {
      assert !IsSpace(c[0]);
      TrimEmptyIff(c);
    }
    assert s[b..] == c;
    assert s[b..e] == tc;
    assert s[a..e] == w + [' '] + tc;
    forall i | 0 <= i < a ensures IsSpace(s[i]) { assert s[i] == lead[i]; }
    forall i | e <= i < |s| ensures IsSpace(s[i]) { assert s[i] == c[i - b]; }
    TrimSlice(s, a, e);
  }

  /** Joining a word before a non-empty list of words puts one space between. */
  lemma JoinCons(w: string, ws: seq<string>, sep: char)
    requires ws != []
    ensures Join([w] + ws, sep) == w + [sep] + Join(ws, sep)
  {
    assert ([w] + ws)[1..] == ws;
  }

  /** What `norm` does: the collapsed and trimmed text is the words joined by single spaces. */
  predicate JoinsWords(s: string) {
    Trim(Collapse(s)) == Join(Words(s), ' ')
  }

  /** The last word of a text: the word, trailing spaces, and nothing after. */
  lemma JoinsLastWord(lead: string, w: string, rest: string)
    requires AllSpace(lead) && AllSpace(rest)
    requires w != [] && forall i :: 0 <= i < |w| ==> !IsSpace(w[i])
    ensures Trim(lead + Collapse(w + rest)) == Join([w] + Words(rest), ' ')
  {
    CollapseWord(w, rest);
    WordsOfSpace(rest);
    assert lead + Collapse(w + rest) == lead + w + Collapse(rest);
    TrimWordThenSpace(lead, w, Collapse(rest));
    assert [w] + Words(rest) == [w];
  }

  /** A word followed by spaces and more words: one space, then the rest joined. */
  lemma JoinsNextWord(lead: string, w: string, rest: string)
    requires AllSpace(lead)
    requires w != [] && forall i :: 0 <= i < |w| ==> !IsSpace(w[i])
    requires rest != [] && IsSpace(rest[0]) && TrimStart(rest) != []
    requires JoinsWords(TrimStart(rest))
    ensures Trim(lead + Collapse(w + rest)) == Join([w] + Words(rest), ' ')
  {
    var r2 := TrimStart(rest);
    var c := Collapse(r2);
    CollapseWord(w, rest);
    CollapseLeading(rest);
    assert lead + Collapse(w + rest) == lead + w + [' '] + c;
    TrimWordSpaceText(lead, w, c);
    WordsTrimStart(rest);
    assert Words(r2) != [] by {
      assert LeadingSpace(r2) == 0;
    }
    JoinCons(w, Words(r2), ' ');
  }

  /** What collapsing leaves of the leading spaces of `s`: one space, or nothing. */
  function Lead(s: string): (r: string)
    ensures AllSpace(r)
  {
    if s != [] && IsSpace(s[0]) then [' '] else []
  }

  /** The first word of a text that is not blank. */
  function FirstWord(s: string): (w: string)
    requires TrimStart(s) != []
    ensures w != [] && forall i :: 0 <= i < |w| ==> !IsSpace(w[i])
  {
    var t := TrimStart(s);
    t[..WordLength(t)]
  }

  /** The text after the first word of `s`, with the spaces that follow the word. */
  function AfterFirstWord(s: string): (r: string)
    requires TrimStart(s) != []
    ensures |r| < |s|
    ensures r != [] ==> IsSpace(r[0])
  {
    var t := TrimStart(s);
    t[WordLength(t)..]
  }

  /** A text that is not blank is its leading spaces, its first word and the rest. */
  lemma FirstWordSplit(s: string)
    requires TrimStart(s) != []
    ensures Collapse(s) == Lead(s) + Collapse(FirstWord(s) + AfterFirstWord(s))
    ensures Words(s) == [FirstWord(s)] + Words(AfterFirstWord(s))
  {
    var t := TrimStart(s);
    CollapseLeading(s);
    SplitAt(t, WordLength(t));
  }

  /** Blank text collapses and trims to "" and has no words. */
  lemma JoinsWordsBlank(s: string)
    requires TrimStart(s) == []
    ensures JoinsWords(s)
  {
    CollapseLeading(s);
    TrimEmptyIff(Lead(s));
  }

  /** A text whose first word is its last. */
  lemma JoinsWordsOne(s: string)
    requires TrimStart(s) != [] && AllSpace(AfterFirstWord(s))
    ensures JoinsWords(s)
  {
    FirstWordSplit(s);
    JoinsLastWord(Lead(s), FirstWord(s), AfterFirstWord(s));
  }

  /** A text with words after its first, given that the rest joins its words. */
  lemma JoinsWordsMore(s: string)
    requires TrimStart(s) != [] && !AllSpace(AfterFirstWord(s))
    requires JoinsWords(TrimStart(AfterFirstWord(s)))
    ensures JoinsWords(s)
  {
    FirstWordSplit(s);
    AllSpaceTrimStart(AfterFirstWord(s));
    JoinsNextWord(Lead(s), FirstWord(s), AfterFirstWord(s));
  }

  /** The collapsed and trimmed text is the words joined by single spaces. */
  lemma {:induction false} CollapseTrimJoinsWords(s: string)
    ensures JoinsWords(s)
    decreases |s|
  {
    if TrimStart(s) == [] {
      JoinsWordsBlank(s);
    } else {
      var rest := AfterFirstWord(s);
      if AllSpace(rest) {
        JoinsWordsOne(s);
      } else {
        CollapseTrimJoinsWords(TrimStart(rest));
        JoinsWordsMore(s);
      }
    }
  }
}
