/**
 * The casting-post parser of the Facebook scraper (facebook.js): each of
 * the first 25 post texts is trimmed and read for labelled fields
 * ("PROJECT:", "ROLE:", ...), the gender after "looking for a", the first
 * e-mail address, and whether it is a casting post.
 */
module FacebookPosts {
  import opened Wrappers
  import opened Strings
  import opened Scanners
  import opened Listings

  const MaxPosts: nat := 25

  datatype Parsed = Parsed(
    project: Option<string>,
    role: Option<string>,
    shootDate: Option<string>,
    callTime: Option<string>,
    location: Option<string>,
    rate: Option<string>,
    usage: Option<string>,
    age: Option<string>,
    gender: Option<string>,
    email: Option<string>)

  datatype Post = Post(raw: string, parsed: Parsed, isCastingPost: bool)

  // ---------- labelled fields ----------

  /**
   * `raw.match(/LABEL\s*(.*)/i)?.[1] || null`: at the leftmost occurrence
   * of the label, in any case, the spaces after it are skipped, line breaks
   * included, and the rest of that line is the field; an empty rest is
   * `null`. `labels` are the lower-case spellings of LABEL in the order the
   * expression tries them.
   */
  function LabelledLine(raw: string, labels: seq<string>): (r: Option<string>)
    ensures r.Some? ==> r.value != "" && !IsSpace(r.value[0])
    ensures r.Some? ==> forall k :: 0 <= k < |r.value| ==> !IsLineTerminator(r.value[k])
    ensures (forall i :: 0 <= i <= |raw| ==> LabelAt(ToLower(raw), i, labels).None?) ==> r.None?
  {
    match FindLabel(ToLower(raw), labels, 0)
    case None => None
    case Some((i, j)) =>
      var k := SpaceEnd(raw, j);
      var line := raw[k..LineEnd(raw, k)];
      if line == "" then None else Some(line)
  }

  /** A text that opens with the label and spaces: the label is found at 0 and the spaces end where the value starts. */
  lemma {:induction false} LabelThenValue(labels: seq<string>, tag: string, gap: string, rest: string)
    requires |labels| > 0 && ToLower(tag) == labels[0]
    requires AllSpace(gap)
    requires rest != [] && !IsSpace(rest[0])
    ensures FindLabel(ToLower(tag + gap + rest), labels, 0) == Some((0, |tag|))
    ensures SpaceEnd(tag + gap + rest, |tag|) == |tag| + |gap|
  {
    var raw := tag + gap + rest;
    var lower := ToLower(raw);
    var j := |tag|;
    assert lower[..j] == labels[0] by {
      forall k | 0 <= k < j ensures lower[k] == labels[0][k] {
        assert raw[k] == tag[k];
      }
    }
    assert OccursAt(lower, labels[0], 0);
    var k := j + |gap|;
    forall m | j <= m < k ensures IsSpace(raw[m]) {
      assert raw[m] == gap[m - j];
    }
    assert raw[k] == rest[0];
    RunEndAt(raw, j, k, IsSpace);
  }

  /**
   * A field written, after any text in which the label does not occur, as
   * its label, spaces (line breaks among them) and a one-line value reads
   * back as that value.
   */
  lemma {:induction false} LabelledLineRead(labels: seq<string>, prefix: string, tag: string, gap: string, v: string, rest: string)
    requires |labels| > 0 && ToLower(tag) == labels[0]
    requires forall i :: 0 <= i < |prefix| ==> LabelAt(ToLower(prefix + tag + gap + v + rest), i, labels).None?
    requires AllSpace(gap)
    requires v != "" && !IsSpace(v[0]) && forall k :: 0 <= k < |v| ==> !IsLineTerminator(v[k])
    requires rest == [] || IsLineTerminator(rest[0])
    ensures LabelledLine(prefix + tag + gap + v + rest, labels) == Some(v)
  {
    LabelAfterPrefix(labels, prefix, tag, gap, v, rest);
    FieldAfterLabel(labels, prefix + tag, |prefix|, gap, v, rest);
  }

  /** Once the label found first ends right where `gap` starts, the field is `v`. */
  lemma {:induction false} FieldAfterLabel(labels: seq<string>, head: string, i: nat, gap: string, v: string, rest: string)
    requires FindLabel(ToLower(head + gap + v + rest), labels, 0) == Some((i, |head|))
    requires AllSpace(gap)
    requires v != "" && !IsSpace(v[0]) && forall k :: 0 <= k < |v| ==> !IsLineTerminator(v[k])
    requires rest == [] || IsLineTerminator(rest[0])
    ensures LabelledLine(head + gap + v + rest, labels) == Some(v)
  {
    SpacesThenValue(head, gap, v, rest);
    LineAfter(head + gap, v, rest);
    LabelledLineAt(head + gap + v + rest, labels, i, |head|, |head| + |gap|, |head| + |gap| + |v|);
  }

  /** Spaces between a head and a value that starts with a non-space end where the value starts. */
  lemma SpacesThenValue(head: string, gap: string, v: string, rest: string)
    requires AllSpace(gap) && v != [] && !IsSpace(v[0])
    ensures SpaceEnd(head + gap + v + rest, |head|) == |head| + |gap|
  {
    var s := head + gap + v + rest;
    forall m | |head| <= m < |head| + |gap| ensures IsSpace(s[m]) {
      assert s[m] == gap[m - |head|];
    }
    assert s[|head| + |gap|] == v[0];
    RunEndAt(s, |head|, |head| + |gap|, IsSpace);
  }

  /** A label right after text in which it does not occur is the first one found. */
  lemma {:induction false} LabelAfterPrefix(labels: seq<string>, prefix: string, tag: string, gap: string, v: string, rest: string)
    requires |labels| > 0 && ToLower(tag) == labels[0]
    requires forall i :: 0 <= i < |prefix| ==> LabelAt(ToLower(prefix + tag + gap + v + rest), i, labels).None?
    ensures FindLabel(ToLower(prefix + tag + gap + v + rest), labels, 0) == Some((|prefix|, |prefix| + |tag|))
  {
    var lower := ToLower(prefix + tag + gap + v + rest);
    LowerOfMiddle(prefix, tag, gap, v, rest);
    assert OccursAt(lower, labels[0], |prefix|);
    FirstLabelAt(lower, labels, |prefix|, |prefix| + |tag|);
  }

  /** Lower-casing a text lower-cases the label inside it in place. */
  lemma LowerOfMiddle(prefix: string, tag: string, gap: string, v: string, rest: string)
    ensures var lower := ToLower(prefix + tag + gap + v + rest);
      |prefix| + |tag| <= |lower| && lower[|prefix|..|prefix| + |tag|] == ToLower(tag)
  {
    var raw := prefix + tag + gap + v + rest;
    var lower := ToLower(raw);
    forall m | 0 <= m < |tag| ensures lower[|prefix| + m] == ToLower(tag)[m] {
      assert raw[|prefix| + m] == tag[m];
    }
  }

  /** A label at `i` with none before it is the one FindLabel finds. */
  lemma {:induction false} FirstLabelAt(lower: string, labels: seq<string>, i: nat, j: nat)
    requires i <= |lower| && LabelAt(lower, i, labels) == Some(j)
    requires forall m :: 0 <= m < i ==> LabelAt(lower, m, labels).None?
    ensures FindLabel(lower, labels, 0) == Some((i, j))
  {
    var r := FindLabel(lower, labels, 0);
    assert r.Some?;
    assert !(r.value.0 < i);
    assert !(r.value.0 > i);
  }

  /** Where the label starts at `i` and ends at `j`, the spaces at `k` and the line at `e`, a non-empty line is the field. */
  lemma {:induction false} LabelledLineAt(raw: string, labels: seq<string>, i: nat, j: nat, k: nat, e: nat)
    requires FindLabel(ToLower(raw), labels, 0) == Some((i, j)) && j <= |raw|
    requires SpaceEnd(raw, j) == k && LineEnd(raw, k) == e && k < e
    ensures LabelledLine(raw, labels) == Some(raw[k..e])
  {
  }

  /** A one-line `v` after `pre`, followed by a line break or nothing, is the line that starts after `pre`. */
  lemma LineAfter(pre: string, v: string, rest: string)
    requires forall k :: 0 <= k < |v| ==> !IsLineTerminator(v[k])
    requires rest == [] || IsLineTerminator(rest[0])
    ensures var raw := pre + v + rest;
      LineEnd(raw, |pre|) == |pre| + |v| && raw[|pre|..|pre| + |v|] == v
  {
    var raw := pre + v + rest;
    var k := |pre|;
    var e := k + |v|;
    forall m | k <= m < e ensures !IsLineTerminator(raw[m]) {
      assert raw[m] == v[m - k];
    }
    if rest != [] {
      assert raw[e] == rest[0];
    }
    RunEndAt(raw, k, e, c => !IsLineTerminator(c));
    assert raw[k..e] == v;
  }

  // ---------- usage ----------

  /** The first line break at or after `k`, or the end of the text. */
  function NextLineBreak(raw: string, k: nat): (q: nat)
    requires k <= |raw|
    ensures k <= q <= |raw|
    ensures forall m :: k <= m < q ==> raw[m] != '\n'
    ensures q < |raw| ==> raw[q] == '\n'
  {
    RunEnd(raw, k, c => c != '\n')
  }

  /**
   * `raw.match(/USAGE:\s*([\s\S]*?)\n/i)?.[1]?.trim() || null` as written:
   * after the label and its spaces, the text up to the next line break,
   * trimmed. With no line break after the spaces there is no match (or only
   * an empty one), so a usage on the last line of the post is lost.
   */
  function UsageAsWritten(raw: string): (r: Option<string>)
    ensures r.Some? ==> r.value != ""
  {
    match FindLabel(ToLower(raw), ["usage:"], 0)
    case None => None
    case Some((i, j)) =>
      var k := SpaceEnd(raw, j);
      var q := NextLineBreak(raw, k);
      if q == |raw| then None
      else
        var u := Trim(raw[k..q]);
        if u == "" then None else Some(u)
  }

  /** The usage as intended: the rest of the line after the label, trimmed, whether or not a line break ends it. */
  function Usage(raw: string): (r: Option<string>)
    ensures r.Some? ==> r.value != "" && '\n' !in r.value
  {
    match FindLabel(ToLower(raw), ["usage:"], 0)
    case None => None
    case Some((i, j)) =>
      var k := SpaceEnd(raw, j);
      var q := NextLineBreak(raw, k);
      var u := Trim(raw[k..q]);
      TrimmedLineHasNoBreak(raw, k, q);
      if u == "" then None else Some(u)
  }

  /** The text between `k` and a line break or the end, trimmed, holds no line break. */
  lemma TrimmedLineHasNoBreak(raw: string, k: nat, q: nat)
    requires k <= q <= |raw| && forall m :: k <= m < q ==> raw[m] != '\n'
    ensures '\n' !in Trim(raw[k..q])
  {
    assert forall m :: 0 <= m < |raw[k..q]| ==> raw[k..q][m] != '\n';
    TrimKeepsClass(raw[k..q], c => c != '\n');
  }

  /** The two readings agree whenever a line break follows the usage. */
  lemma UsageAgreesBeforeLineBreak(raw: string)
    requires UsageAsWritten(raw).Some?
    ensures Usage(raw) == UsageAsWritten(raw)
  {
  }

  /** A post with no line break at all never yields a usage as written. */
  lemma UsageAsWrittenNeedsLineBreak(raw: string)
    requires '\n' !in raw
    ensures UsageAsWritten(raw).None?
  {
  }

  /**
   * A usage on the last line of a post, such as "USAGE: Online 1 year", is
   * lost as written and read in full as intended. Posts are trimmed, so the
   * last line never ends with a line break.
   */
  lemma UsageOnLastLine(tag: string, gap: string, v: string)
    requires ToLower(tag) == "usage:" && AllSpace(gap) && '\n' !in gap
    requires v != "" && '\n' !in v && !IsSpace(v[0]) && !IsSpace(v[|v| - 1])
    ensures UsageAsWritten(tag + gap + v).None?
    ensures Usage(tag + gap + v) == Some(v)
  {
    var raw := tag + gap + v;
    LabelThenValue(["usage:"], tag, gap, v);
    forall m | 0 <= m < |raw| ensures raw[m] != '\n' {
      if m < |tag| {
        assert LowerChar(tag[m]) == "usage:"[m];
      } else if m < |tag| + |gap| {
        assert raw[m] == gap[m - |tag|];
      } else {
        assert raw[m] == v[m - |tag| - |gap|];
      }
    }
    UsageAsWrittenNeedsLineBreak(raw);
    var k := |tag| + |gap|;
    RunEndAt(raw, k, |raw|, c => c != '\n');
    assert NextLineBreak(raw, k) == |raw|;
    assert raw[k..|raw|] == v;
    TrimOfTrimmed(v);
  }

  // ---------- gender and e-mail ----------

  predicate NoChar(c: char) { false }

  /** `raw.match(/LOOKING FOR A ([A-Za-z]+)/i)?.[1] || null`: the word after the first "looking for a " that has one. */
  function Gender(raw: string): (r: Option<string>)
    ensures r.Some? ==> r.value != "" && forall k :: 0 <= k < |r.value| ==> IsLetter(r.value[k])
  {
    LabelSepRun(raw, ["looking for a "], NoChar, IsLetter, 0)
  }

  /** `[a-zA-Z0-9._%+-]` */
  predicate LocalChar(c: char) { IsLetter(c) || IsDigit(c) || c == '.' || c == '_' || c == '%' || c == '+' || c == '-' }

  /** `[a-zA-Z0-9.-]` */
  predicate DomainChar(c: char) { IsLetter(c) || IsDigit(c) || c == '.' || c == '-' }

  /** A `.` at `p` followed by two letters. */
  predicate TldDotAt(s: string, p: nat) {
    p + 2 < |s| && s[p] == '.' && IsLetter(s[p + 1]) && IsLetter(s[p + 2])
  }

  /** The last `p` in `[lo, hi]` with `TldDotAt`, scanning down as the greedy domain part gives characters back. */
  function LastTldDot(s: string, lo: nat, hi: nat): (p: Option<nat>)
    ensures p.Some? ==> lo <= p.value <= hi && TldDotAt(s, p.value)
    ensures p.None? ==> forall m :: lo <= m <= hi ==> !TldDotAt(s, m)
    decreases hi
  {
    if hi < lo then None
    else if TldDotAt(s, hi) then Some(hi)
    else if hi == lo then None
    else LastTldDot(s, lo, hi - 1)
  }

  /**
   * The match of `/[a-zA-Z0-9._%+-]+@[a-zA-Z0-9.-]+\.[A-Z]{2,}/i` starting
   * at `a`: the local part runs up to an `@`; of the domain run after it,
   * the longest prefix followed by a `.` and two letters is kept, and the
   * letters after that `.` end the match.
   */
  function EmailAt(s: string, a: nat): (r: Option<string>)
    requires a <= |s|
    ensures r.Some? ==> a + |r.value| <= |s| && r.value == s[a..a + |r.value|]
    ensures r.Some? ==> '@' in r.value && LocalChar(r.value[0])
    ensures r.Some? ==> IsLetter(r.value[|r.value| - 1]) && IsLetter(r.value[|r.value| - 2])
  {
    match EmailSpan(s, a)
    case None => None
    case Some((e, end)) =>
      var m := s[a..end];
      assert m[e - a] == '@';
      assert m[|m| - 1] == s[end - 1] && m[|m| - 2] == s[end - 2];
      Some(m)
  }

  /** The position of the `@` and the end of the match starting at `a`. */
  function EmailSpan(s: string, a: nat): (r: Option<(nat, nat)>)
    requires a <= |s|
    ensures r.Some? ==> a < r.value.0 && r.value.0 + 5 <= r.value.1 <= |s| && LocalChar(s[a]) && s[r.value.0] == '@'
    ensures r.Some? ==> IsLetter(s[r.value.1 - 1]) && IsLetter(s[r.value.1 - 2])
  {
    if a == |s| || !LocalChar(s[a]) then None
    else
      var e := RunEnd(s, a, LocalChar);
      if e == |s| || s[e] != '@' then None
      else
        match DomainEnd(s, e)
        case None => None
        case Some(end) => Some((e, end))
  }

  /** Where the domain after the `@` at `e` ends, the two letters of its top-level domain included. */
  function DomainEnd(s: string, e: nat): (end: Option<nat>)
    requires e < |s|
    ensures end.Some? ==> e + 5 <= end.value <= |s| && IsLetter(s[end.value - 1]) && IsLetter(s[end.value - 2])
  {
    var d := RunEnd(s, e + 1, DomainChar);
    if d < e + 5 then None
    else
      match LastTldDot(s, e + 2, d - 3)
      case None => None
      case Some(p) =>
        var end := RunEnd(s, p + 1, IsLetter);
        assert end >= p + 3;
        Some(end)
  }

  function EmailScan(s: string): nat -> Option<string> {
    (a: nat) => if a <= |s| then EmailAt(s, a) else None
  }

  /** The leftmost match at or after `from`. */
  function FindEmail(s: string, from: nat): (r: Option<string>)
    requires from <= |s|
    ensures r.Some? ==>
      exists a :: from <= a <= |s| && EmailAt(s, a) == r &&
        forall b :: from <= b < a ==> EmailAt(s, b).None?
    ensures r.Some? ==> '@' in r.value && Contains(s, r.value)
    ensures r.None? ==> forall a :: from <= a <= |s| ==> EmailAt(s, a).None?
  {
    var r := Leftmost(EmailScan(s), from, |s|);
    if r.Some? then EmailLeftmostFound(s, from); r
    else EmailLeftmostNone(s, from); r
  }

  /** The leftmost hit of the scan is the leftmost match of the address expression. */
  lemma EmailLeftmostFound(s: string, from: nat)
    requires from <= |s| && Leftmost(EmailScan(s), from, |s|).Some?
    ensures exists a :: FirstEmailAt(s, from, a, Leftmost(EmailScan(s), from, |s|))
    ensures Contains(s, Leftmost(EmailScan(s), from, |s|).value)
  {
    var scan := EmailScan(s);
    var a := LeftmostFound(scan, from, |s|);
    forall b | from <= b <= a ensures scan(b) == EmailAt(s, b) {
    }
    EmailContained(s, a);
    assert FirstEmailAt(s, from, a, Leftmost(scan, from, |s|));
  }

  /** `r` is the match at `a`, and no position from `from` up to `a` starts one. */
  predicate FirstEmailAt(s: string, from: nat, a: nat, r: Option<string>) {
    from <= a <= |s| && EmailAt(s, a) == r && forall b :: from <= b < a ==> EmailAt(s, b).None?
  }

  /** With no hit of the scan, no position starts an address. */
  lemma EmailLeftmostNone(s: string, from: nat)
    requires from <= |s| && Leftmost(EmailScan(s), from, |s|).None?
    ensures forall a :: from <= a <= |s| ==> EmailAt(s, a).None?
  {
    var scan := EmailScan(s);
    forall a | from <= a <= |s| ensures EmailAt(s, a).None? {
      assert scan(a).None?;
    }
  }

  /** A match of the address expression is a substring of the text. */
  lemma EmailContained(s: string, a: nat)
    requires a <= |s| && EmailAt(s, a).Some?
    ensures Contains(s, EmailAt(s, a).value)
  {
    assert OccursAt(s, EmailAt(s, a).value, a);
    ContainsIff(s, EmailAt(s, a).value);
  }

  /** LastTldDot finds the last suitable dot of its range. */
  lemma {:induction false} LastTldDotIs(s: string, lo: nat, hi: nat, p: nat)
    requires lo <= p <= hi && TldDotAt(s, p)
    requires forall m :: p < m <= hi ==> !TldDotAt(s, m)
    ensures LastTldDot(s, lo, hi) == Some(p)
    decreases hi
  {
    if hi > p {
      LastTldDotIs(s, lo, hi - 1, p);
    }
  }

  /** The steps of EmailAt that succeed give the match from `a` to the end of the top-level domain. */
  lemma EmailAtFound(s: string, a: nat, e: nat, d: nat, p: nat, end: nat)
    requires a < e < |s| && LocalChar(s[a]) && RunEnd(s, a, LocalChar) == e && s[e] == '@'
    requires RunEnd(s, e + 1, DomainChar) == d && d >= e + 5
    requires LastTldDot(s, e + 2, d - 3) == Some(p)
    requires RunEnd(s, p + 1, IsLetter) == end
    ensures EmailAt(s, a) == Some(s[a..end])
  {
    assert DomainEnd(s, e) == Some(end);
    assert EmailSpan(s, a) == Some((e, end));
  }

  /** The characters of an address as EmailRead writes it, position by position. */
  lemma AddressChars(local: string, host: string, tld: string, post: string)
    requires forall k :: 0 <= k < |local| ==> LocalChar(local[k])
    requires forall k :: 0 <= k < |host| ==> DomainChar(host[k])
    requires forall k :: 0 <= k < |tld| ==> IsLetter(tld[k])
    ensures var s := local + "@" + host + "." + tld + post;
      var e := |local|;
      var p := e + 1 + |host|;
      var d := p + 1 + |tld|;
      && |s| == d + |post|
      && (forall k :: 0 <= k < e ==> LocalChar(s[k]))
      && s[e] == '@' && s[p] == '.'
      && (forall k :: e + 1 <= k < d ==> DomainChar(s[k]))
      && (forall k :: p < k < d ==> IsLetter(s[k]))
      && (post != [] ==> s[d] == post[0])
      && s[..d] == local + "@" + host + "." + tld
  {
    var s := local + "@" + host + "." + tld + post;
    var e := |local|;
    var p := e + 1 + |host|;
    var d := p + 1 + |tld|;
    forall k | 0 <= k < e ensures LocalChar(s[k]) {
      assert s[k] == local[k];
    }
    forall k | e + 1 <= k < d ensures DomainChar(s[k]) && (p < k ==> IsLetter(s[k])) {
      if k < p {
        assert s[k] == host[k - e - 1];
      } else if k > p {
        assert s[k] == tld[k - p - 1];
      }
    }
  }

  /**
   * A text whose local part ends at `e` with an `@`, whose domain run ends
   * at `d`, and whose last `.` is at `p` with letters after it up to `d`,
   * holds an address from 0 to `d`.
   */
  lemma EmailByPositions(s: string, e: nat, p: nat, d: nat)
    requires 0 < e && e + 2 <= p && p + 3 <= d <= |s|
    requires forall k :: 0 <= k < e ==> LocalChar(s[k])
    requires s[e] == '@' && s[p] == '.'
    requires forall k :: e + 1 <= k < d ==> DomainChar(s[k])
    requires forall k :: p < k < d ==> IsLetter(s[k])
    requires d == |s| || !DomainChar(s[d])
    ensures FindEmail(s, 0) == Some(s[..d])
  {
    RunEndAt(s, 0, e, LocalChar);
    RunEndAt(s, e + 1, d, DomainChar);
    LastTldDotIs(s, e + 2, d - 3, p);
    RunEndAt(s, p + 1, d, IsLetter);
    EmailAtFound(s, 0, e, d, p, d);
    assert s[0..d] == s[..d];
    FindEmailAtStart(s);
  }

  /** An address that starts the text is the one found. */
  lemma FindEmailAtStart(s: string)
    requires EmailAt(s, 0).Some?
    ensures FindEmail(s, 0) == EmailAt(s, 0)
  {
    var r := FindEmail(s, 0);
    assert r.Some?;
    var a :| 0 <= a <= |s| && EmailAt(s, a) == r && forall b :: 0 <= b < a ==> EmailAt(s, b).None?;
    assert a == 0;
  }

  /**
   * An address written as a local part, `@`, a host (dots allowed), `.`
   * and a top-level domain of two letters or more is read whole, up to the
   * first character that cannot continue a domain.
   */
  lemma EmailRead(local: string, host: string, tld: string, post: string)
    requires local != [] && forall k :: 0 <= k < |local| ==> LocalChar(local[k])
    requires host != [] && forall k :: 0 <= k < |host| ==> DomainChar(host[k])
    requires |tld| >= 2 && forall k :: 0 <= k < |tld| ==> IsLetter(tld[k])
    requires post == [] || !DomainChar(post[0])
    ensures FindEmail(local + "@" + host + "." + tld + post, 0) == Some(local + "@" + host + "." + tld)
  {
    var s := local + "@" + host + "." + tld + post;
    var e, p := |local|, |local| + 1 + |host|;
    var d := p + 1 + |tld|;
    AddressChars(local, host, tld, post);
    assert d == |s| || !DomainChar(s[d]);
    EmailByPositions(s, e, p, d);
  }

  // ---------- posts ----------

  /** The fields of one (trimmed) post and whether it is a casting post. */
  function ParsePost(raw: string): (p: Post)
    ensures p.raw == raw
    ensures p.isCastingPost <==> p.parsed.project.Some? || Contains(raw, "CASTING")
    ensures p.parsed.project == LabelledLine(raw, ["project:"])
    ensures p.parsed.usage == UsageAsWritten(raw) && p.parsed.email == FindEmail(raw, 0)
    ensures p.parsed.role == LabelledLine(raw, ["role:"])
    ensures p.parsed.shootDate == LabelledLine(raw, ["shoot date:"])
    ensures p.parsed.callTime == LabelledLine(raw, ["call time:"])
    ensures p.parsed.location == LabelledLine(raw, ["location:"])
    ensures p.parsed.rate == LabelledLine(raw, ["rate:"])
    ensures p.parsed.age == LabelledLine(raw, ["ages:", "age:"])
    ensures p.parsed.gender == Gender(raw)
  {
    var parsed := Parsed(
      LabelledLine(raw, ["project:"]),
      LabelledLine(raw, ["role:"]),
      LabelledLine(raw, ["shoot date:"]),
      LabelledLine(raw, ["call time:"]),
      LabelledLine(raw, ["location:"]),
      LabelledLine(raw, ["rate:"]),
      UsageAsWritten(raw),
      LabelledLine(raw, ["ages:", "age:"]),
      Gender(raw),
      FindEmail(raw, 0));
    Post(raw, parsed, parsed.project.Some? || Contains(raw, "CASTING"))
  }

  /** The first 25 post texts, trimmed and parsed, in order. */
  function ParsePosts(nodes: seq<string>): (posts: seq<Post>)
    ensures |posts| == if |nodes| < MaxPosts then |nodes| else MaxPosts
    ensures forall k :: 0 <= k < |posts| ==> posts[k].raw == Trim(nodes[k])
    ensures forall k :: 0 <= k < |posts| ==> posts[k] == ParsePost(Trim(nodes[k]))
  {
    var n := if |nodes| < MaxPosts then |nodes| else MaxPosts;
    seq(n, k requires 0 <= k < n => ParsePost(Trim(nodes[k])))
  }

  /** "ROLE:", spaces and a one-line value, after text with no "role:" in it, give the post's role. */
  lemma ParsePostRoleRead(prefix: string, gap: string, v: string, rest: string)
    requires forall i :: 0 <= i < |prefix| ==> LabelAt(ToLower(prefix + "ROLE:" + gap + v + rest), i, ["role:"]).None?
    requires AllSpace(gap)
    requires v != "" && !IsSpace(v[0]) && forall k :: 0 <= k < |v| ==> !IsLineTerminator(v[k])
    requires rest == [] || IsLineTerminator(rest[0])
    ensures ParsePost(prefix + "ROLE:" + gap + v + rest).parsed.role == Some(v)
  {
    assert ToLower("ROLE:") == "role:";
    LabelledLineRead(["role:"], prefix, "ROLE:", gap, v, rest);
  }

  /** `AGES?:` tries "ages:" first: "AGES:" and a one-line value, after text with no label, give the age. */
  lemma ParsePostAgesRead(prefix: string, gap: string, v: string, rest: string)
    requires forall i :: 0 <= i < |prefix| ==> LabelAt(ToLower(prefix + "AGES:" + gap + v + rest), i, ["ages:", "age:"]).None?
    requires AllSpace(gap)
    requires v != "" && !IsSpace(v[0]) && forall k :: 0 <= k < |v| ==> !IsLineTerminator(v[k])
    requires rest == [] || IsLineTerminator(rest[0])
    ensures ParsePost(prefix + "AGES:" + gap + v + rest).parsed.age == Some(v)
  {
    assert ToLower("AGES:") == "ages:";
    LabelledLineRead(["ages:", "age:"], prefix, "AGES:", gap, v, rest);
  }

  /** "AGE:" is not "ages:", so the expression falls back to "age:" and still reads the value. */
  lemma ParsePostAgeRead(prefix: string, gap: string, v: string, rest: string)
    requires forall i :: 0 <= i < |prefix| ==> LabelAt(ToLower(prefix + "AGE:" + gap + v + rest), i, ["ages:", "age:"]).None?
    requires AllSpace(gap)
    requires v != "" && !IsSpace(v[0]) && forall k :: 0 <= k < |v| ==> !IsLineTerminator(v[k])
    requires rest == [] || IsLineTerminator(rest[0])
    ensures ParsePost(prefix + "AGE:" + gap + v + rest).parsed.age == Some(v)
  {
    var labels := ["ages:", "age:"];
    var lower := ToLower(prefix + "AGE:" + gap + v + rest);
    LowerOfMiddle(prefix, "AGE:", gap, v, rest);
    assert ToLower("AGE:") == "age:";
    assert lower[|prefix| + 3] == ':';
    assert !OccursAt(lower, labels[0], |prefix|);
    assert OccursAt(lower, labels[1], |prefix|);
    assert LabelAt(lower, |prefix|, labels) == Some(|prefix| + 4);
    FirstLabelAt(lower, labels, |prefix|, |prefix| + 4);
    FieldAfterLabel(labels, prefix + "AGE:", |prefix|, gap, v, rest);
  }

  /** A post with neither a "project:" label (in any case) nor "CASTING" is not a casting post. */
  lemma NotCastingWithoutMarkers(raw: string)
    requires forall i :: 0 <= i <= |raw| ==> LabelAt(ToLower(raw), i, ["project:"]).None?
    requires !Contains(raw, "CASTING")
    ensures !ParsePost(raw).isCastingPost
  {
  }
}
