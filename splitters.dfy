/**
 * The StarNow helpers `splitLocation`, which splits "City, State, Country"
 * at its commas, and `splitAge`, which reads an age range such as "18-30"
 * or "21+" into a minimum and a maximum age.
 */
module Splitters {
  import opened Wrappers
  import opened Strings
  import opened Scanners

  // ---------- splitLocation ----------

  datatype Location = Location(city: string, state: string, country: string)

  const NoLocation := Location("N/A", "N/A", "N/A")

  /** A location field: "N/A", or a trimmed piece of the text between two commas. */
  predicate IsField(f: string) {
    f == "N/A" || (',' !in f && Trimmed(f))
  }

  /**
   * `splitLocation`: the comma-separated parts, each trimmed; one part is
   * the country, two are city and state, three or more give city, state and
   * country, and the rest are ignored.
   */
  function SplitLocation(raw: string): (loc: Location)
    ensures raw == "" || raw == "N/A" ==> loc == NoLocation
    ensures IsField(loc.city) && IsField(loc.state) && IsField(loc.country)
    ensures ',' !in raw && raw != "N/A" && raw != "" ==> loc == Location("N/A", "N/A", Trim(raw))
  {
    if raw == "" || raw == "N/A" then NoLocation
    else
      var parts := Split(raw, ',');
      var p := seq(|parts|, k requires 0 <= k < |parts| => Trim(parts[k]));
      assert forall k :: 0 <= k < |p| ==> IsField(p[k]) by {
        forall k | 0 <= k < |p| ensures IsField(p[k]) {
          assert ',' !in parts[k];
          assert ',' !in p[k] by {
            var t := Trim(parts[k]);
            var a := LeadingSpace(parts[k]);
            forall j | 0 <= j < |t| ensures t[j] != ',' { assert t[j] == parts[k][a + j]; }
          }
        }
      }
      if |p| == 1 then Location("N/A", "N/A", p[0])
      else if |p| == 2 then Location(p[0], p[1], "N/A")
      else Location(p[0], p[1], p[2])
  }

  lemma SplitWithoutComma(a: string)
    requires ',' !in a
    ensures Split(a, ',') == [a]
  {
  }

  /** "City, State" sets city and state, and no country. */
  lemma LocationTwoParts(a: string, b: string)
    requires ',' !in a && ',' !in b
    ensures SplitLocation(a + [','] + b) == Location(Trim(a), Trim(b), "N/A")
  {
    SplitAfterPiece(a, ',', b);
    SplitWithoutComma(b);
    assert (a + [','] + b)[|a|] == ',';
  }

  /** The first three parts of "A,B,C..." are A, B and C. */
  lemma SplitThree(a: string, b: string, c: string, rest: string)
    requires ',' !in a && ',' !in b && ',' !in c
    requires rest == [] || rest[0] == ','
    ensures var parts := Split(a + [','] + b + [','] + c + rest, ',');
      |parts| >= 3 && parts[0] == a && parts[1] == b && parts[2] == c
  {
    assert a + [','] + b + [','] + c + rest == a + [','] + (b + [','] + (c + rest));
    SplitAfterPiece(a, ',', b + [','] + (c + rest));
    SplitAfterPiece(b, ',', c + rest);
    var cr := c + rest;
    assert cr[..|c|] == c;
    if rest == [] {
      assert cr == c;
    } else {
      assert cr[|c|] == ',';
    }
    assert FirstIndexOfChar(cr, ',') == |c|;
  }

  /** "City, State, Country" and any longer list give the first three parts. */
  lemma LocationThreeParts(a: string, b: string, c: string, rest: string)
    requires ',' !in a && ',' !in b && ',' !in c
    requires rest == [] || rest[0] == ','
    ensures SplitLocation(a + [','] + b + [','] + c + rest) == Location(Trim(a), Trim(b), Trim(c))
  {
    var s := a + [','] + b + [','] + c + rest;
    assert s[|a|] == ',';
    SplitThree(a, b, c, rest);
    LocationOfThreeOrMore(s);
  }

  lemma LocationOfThreeOrMore(raw: string)
    requires raw != "" && raw != "N/A" && |Split(raw, ',')| >= 3
    ensures var parts := Split(raw, ',');
      SplitLocation(raw) == Location(Trim(parts[0]), Trim(parts[1]), Trim(parts[2]))
  {
  }

  // ---------- splitAge ----------

  datatype AgeBound = Years(years: nat) | AgeNotAvailable

  datatype AgeRange = AgeRange(minAge: AgeBound, maxAge: AgeBound)

  const NoAgeRange := AgeRange(AgeNotAvailable, AgeNotAvailable)

  /**
   * A match of `/(\d{1,2})\s*-\s*(\d{1,2})/` starting at `i`: `a` digits,
   * spaces up to the `-` at `p`, spaces up to `q`, then `b` digits.
   */
  predicate RangeMatch(s: string, i: nat, a: nat, p: nat, q: nat, b: nat) {
    && 1 <= a <= 2 && 1 <= b <= 2 && i + a <= p && p + 1 <= q && q + b <= |s|
    && (forall k :: i <= k < i + a ==> IsDigit(s[k]))
    && (forall k :: i + a <= k < p ==> IsSpace(s[k]))
    && s[p] == '-'
    && (forall k :: p + 1 <= k < q ==> IsSpace(s[k]))
    && (forall k :: q <= k < q + b ==> IsDigit(s[k]))
  }

  /** `\d{1,2}` at `q` took `b` digits greedily: two, or all there were. */
  predicate DigitsEnd(s: string, q: nat, b: nat)
    requires q + b <= |s|
  {
    b == 2 || q + b == |s| || !IsDigit(s[q + b])
  }

  /**
   * `/(\d{1,2})\s*-\s*(\d{1,2})/` at `i`: the two groups of the match the
   * expression picks, read as numbers, or nothing when no match starts at
   * `i` (RangeAtIsMatch). Only the last group has a choice of length, and
   * it takes the longest: a digit given back by the first `\d{1,2}` would
   * stand where a space or `-` is needed, and a space given back by `\s*`
   * where `-` or a digit is.
   */
  function RangeAt(s: string, i: nat): (r: Option<(nat, nat)>)
    requires i <= |s|
    ensures r.Some? ==> r.value.0 < 100 && r.value.1 < 100
  {
    var a := OneOrTwoDigits(s, i);
    if a == 0 then None
    else
      var p := SpaceEnd(s, i + a);
      if p == |s| || s[p] != '-' then None
      else
        var q := SpaceEnd(s, p + 1);
        var b := OneOrTwoDigits(s, q);
        if b == 0 then None
        else Some((TwoDigitValue(s[i..i + a]), TwoDigitValue(s[q..q + b])))
  }

  /** A range read at `i` holds the groups of a match at `i`, the last one taken greedily. */
  lemma RangeAtIsMatch(s: string, i: nat)
    requires i <= |s| && RangeAt(s, i).Some?
    ensures exists a: nat, p: nat, q: nat, b: nat :: RangeGroups(s, i, a, p, q, b, RangeAt(s, i).value)
  {
    var a := OneOrTwoDigits(s, i);
    assert a != 0;
    var p := SpaceEnd(s, i + a);
    assert p < |s| && s[p] == '-';
    var q := SpaceEnd(s, p + 1);
    var b := OneOrTwoDigits(s, q);
    assert b != 0;
    DigitsSlice(s, i, a);
    DigitsSlice(s, q, b);
    RangeAtSteps(s, i, a, p, q, b);
    RangeStepsMatch(s, i, a, p, q, b);
    assert RangeGroups(s, i, a, p, q, b, RangeAt(s, i).value);
  }

  /** Where every step of RangeAt succeeds, it reads the two groups. */
  lemma RangeAtSteps(s: string, i: nat, a: nat, p: nat, q: nat, b: nat)
    requires i <= |s| && a == OneOrTwoDigits(s, i) && a != 0
    requires p == SpaceEnd(s, i + a) && p < |s| && s[p] == '-'
    requires q == SpaceEnd(s, p + 1) && b == OneOrTwoDigits(s, q) && b != 0
    requires AllDigits(s[i..i + a]) && AllDigits(s[q..q + b])
    ensures RangeAt(s, i) == Some((NumberValue(s[i..i + a]), NumberValue(s[q..q + b])))
  {
    var x := TwoDigitValue(s[i..i + a]);
    var y := TwoDigitValue(s[q..q + b]);
    assert RangeAt(s, i) == Some((x, y));
  }

  /** The successful steps of RangeAt trace a match of the expression. */
  lemma RangeStepsMatch(s: string, i: nat, a: nat, p: nat, q: nat, b: nat)
    requires i <= |s| && a == OneOrTwoDigits(s, i) && a != 0
    requires p == SpaceEnd(s, i + a) && p < |s| && s[p] == '-'
    requires q == SpaceEnd(s, p + 1) && b == OneOrTwoDigits(s, q) && b != 0
    ensures RangeMatch(s, i, a, p, q, b) && DigitsEnd(s, q, b)
  {
  }

  /** The match at `i` with these groups, the last one taken greedily, reads as `r`. */
  predicate RangeGroups(s: string, i: nat, a: nat, p: nat, q: nat, b: nat, r: (nat, nat)) {
    && RangeMatch(s, i, a, p, q, b) && DigitsEnd(s, q, b)
    && r == (NumberValue(s[i..i + a]), NumberValue(s[q..q + b]))
  }

  /** A run of digits, sliced out, is all digits. */
  lemma DigitsSlice(s: string, i: nat, n: nat)
    requires i + n <= |s| && forall k :: i <= k < i + n ==> IsDigit(s[k])
    ensures AllDigits(s[i..i + n])
  {
    var t := s[i..i + n];
    forall k | 0 <= k < n ensures IsDigit(t[k]) {
      assert t[k] == s[i + k];
    }
  }

  /** RangeAt finds nothing only where no match of the expression starts. */
  lemma RangeAtNoneIsNoMatch(s: string, i: nat)
    requires i <= |s| && RangeAt(s, i).None?
    ensures forall a: nat, p: nat, q: nat, b: nat :: !RangeMatch(s, i, a, p, q, b)
  {
    RangeMatchForced(s, i);
  }

  /** Any match at `i` has the digits, spaces and `-` that the greedy steps find. */
  lemma RangeMatchForced(s: string, i: nat)
    requires i <= |s|
    ensures forall a: nat, p: nat, q: nat, b: nat :: RangeMatch(s, i, a, p, q, b) ==>
      && a == OneOrTwoDigits(s, i)
      && p == SpaceEnd(s, i + a)
      && q == SpaceEnd(s, p + 1)
      && OneOrTwoDigits(s, q) > 0
  {
    forall a: nat, p: nat, q: nat, b: nat | RangeMatch(s, i, a, p, q, b)
      ensures && a == OneOrTwoDigits(s, i)
              && p == SpaceEnd(s, i + a)
              && q == SpaceEnd(s, p + 1)
              && OneOrTwoDigits(s, q) > 0
    {
      if a == 1 && i + 1 < |s| {
        assert !IsDigit(s[i + 1]) by {
          if i + 1 < p { assert IsSpace(s[i + 1]); } else { assert s[p] == '-'; }
        }
      }
      RunEndAt(s, i + a, p, IsSpace);
      RunEndAt(s, p + 1, q, IsSpace);
    }
  }

  /** `Number` of one or two digits. */
  function TwoDigitValue(s: string): (n: nat)
    requires 1 <= |s| <= 2 && AllDigits(s)
    ensures n < 100
    ensures n == NumberValue(s)
  {
    if |s| == 1 then
      assert s[..0] == [];
      DigitValue(s[0])
    else
      assert s[..1][..0] == [] && s[..1][0] == s[0];
      assert NumberValue(s[..1]) == DigitValue(s[0]);
      DigitValue(s[0]) * 10 + DigitValue(s[1])
  }

  function RangeScan(s: string): nat -> Option<(nat, nat)> {
    (i: nat) => if i <= |s| then RangeAt(s, i) else None
  }

  /** The leftmost range at or after `from`. */
  function FindRange(s: string, from: nat): (r: Option<(nat, nat)>)
    requires from <= |s|
    ensures r.Some? ==> r.value.0 < 100 && r.value.1 < 100
    ensures r.Some? ==>
      exists i :: from <= i <= |s| && RangeAt(s, i) == r && forall j :: from <= j < i ==> RangeAt(s, j).None?
    ensures r.None? ==> forall i :: from <= i <= |s| ==> RangeAt(s, i).None?
  {
    var r := Leftmost(RangeScan(s), from, |s|);
    if r.Some? then RangeLeftmostFound(s, from); r
    else RangeLeftmostNone(s, from); r
  }

  /** `r` is the range at `i`, and no position from `from` up to `i` starts one. */
  predicate FirstRangeAt(s: string, from: nat, i: nat, r: Option<(nat, nat)>) {
    from <= i <= |s| && RangeAt(s, i) == r && forall j :: from <= j < i ==> RangeAt(s, j).None?
  }

  lemma RangeLeftmostFound(s: string, from: nat)
    requires from <= |s| && Leftmost(RangeScan(s), from, |s|).Some?
    ensures exists i :: FirstRangeAt(s, from, i, Leftmost(RangeScan(s), from, |s|))
  {
    var scan := RangeScan(s);
    var i := LeftmostFound(scan, from, |s|);
    forall j | from <= j <= i ensures scan(j) == RangeAt(s, j) {
    }
    assert FirstRangeAt(s, from, i, Leftmost(scan, from, |s|));
  }

  lemma RangeLeftmostNone(s: string, from: nat)
    requires from <= |s| && Leftmost(RangeScan(s), from, |s|).None?
    ensures forall i :: from <= i <= |s| ==> RangeAt(s, i).None?
  {
    var scan := RangeScan(s);
    forall i | from <= i <= |s| ensures RangeAt(s, i).None? {
      assert scan(i).None?;
    }
  }

  /** A match of `/(\d{1,2})\+/` at `i`: `a` digits, then `+`. */
  predicate PlusMatch(s: string, i: nat, a: nat) {
    1 <= a <= 2 && i + a < |s| && (forall k :: i <= k < i + a ==> IsDigit(s[k])) && s[i + a] == '+'
  }

  /**
   * `/(\d{1,2})\+/` at `i`: the group of the match, read as a number, or
   * nothing when no match starts at `i` (PlusAtIsMatch). Giving back the
   * second digit would leave a digit where `+` is needed.
   */
  function PlusAt(s: string, i: nat): (r: Option<nat>)
    requires i <= |s|
    ensures r.Some? ==> r.value < 100
  {
    var a := OneOrTwoDigits(s, i);
    if a == 0 || i + a == |s| || s[i + a] != '+' then None
    else Some(TwoDigitValue(s[i..i + a]))
  }

  /** PlusAt reads the group of the match at `i`, and finds nothing exactly when there is none. */
  lemma PlusAtIsMatch(s: string, i: nat)
    requires i <= |s|
    ensures PlusAt(s, i).Some? ==>
      exists a: nat :: PlusMatch(s, i, a) && PlusAt(s, i).value == NumberValue(s[i..i + a])
    ensures PlusAt(s, i).None? ==> forall a: nat :: !PlusMatch(s, i, a)
  {
    var n := OneOrTwoDigits(s, i);
    forall a: nat | PlusMatch(s, i, a) ensures a == n {
      if a == 1 && i + 1 < |s| {
        assert !IsDigit(s[i + 1]);
      }
    }
    if PlusAt(s, i).Some? {
      assert PlusMatch(s, i, n);
    }
  }

  /** The leftmost "A+" at or after `from`. */
  function FindPlus(s: string, from: nat): (r: Option<nat>)
    requires from <= |s|
    ensures r.Some? ==> r.value < 100
    ensures r.Some? ==>
      exists i :: from <= i <= |s| && PlusAt(s, i) == r && forall j :: from <= j < i ==> PlusAt(s, j).None?
    ensures r.None? ==> forall i :: from <= i <= |s| ==> PlusAt(s, i).None?
    decreases |s| - from
  {
    match PlusAt(s, from)
    case Some(v) => Some(v)
    case None =>
      if from == |s| then None
      else
        var r := FindPlus(s, from + 1);
        assert r.Some? ==>
          exists i :: from <= i <= |s| && PlusAt(s, i) == r && forall j :: from <= j < i ==> PlusAt(s, j).None?
        by {
          if r.Some? {
            var i :| from + 1 <= i <= |s| && PlusAt(s, i) == r && forall j :: from + 1 <= j < i ==> PlusAt(s, j).None?;
            assert forall j :: from <= j < i ==> PlusAt(s, j).None?;
          }
        }
        r
  }

  /**
   * `splitAge`: a range gives both ages, tried first; otherwise "A+" gives
   * the minimum only; otherwise neither.
   */
  function SplitAge(raw: string): (r: AgeRange)
    ensures raw == "" || raw == "N/A" ==> r == NoAgeRange
    ensures raw != "" && raw != "N/A" && FindRange(raw, 0).Some? ==>
      r == AgeRange(Years(FindRange(raw, 0).value.0), Years(FindRange(raw, 0).value.1))
    ensures raw != "" && raw != "N/A" && FindRange(raw, 0).None? && FindPlus(raw, 0).Some? ==>
      r == AgeRange(Years(FindPlus(raw, 0).value), AgeNotAvailable)
    ensures raw != "" && raw != "N/A" && FindRange(raw, 0).None? && FindPlus(raw, 0).None? ==>
      r == NoAgeRange
    ensures r.minAge.Years? ==> r.minAge.years < 100
    ensures r.maxAge.Years? ==> r.maxAge.years < 100 && r.minAge.Years?
  {
    if raw == "" || raw == "N/A" then NoAgeRange
    else
      match FindRange(raw, 0)
      case Some((lo, hi)) => AgeRange(Years(lo), Years(hi))
      case None =>
        match FindPlus(raw, 0)
        case Some(lo) => AgeRange(Years(lo), AgeNotAvailable)
        case None => NoAgeRange
  }

  /** Without a `-` no range can match, so no maximum age is read. */
  lemma {:induction false} NoRangeWithoutDash(s: string, from: nat)
    requires from <= |s| && '-' !in s
    ensures FindRange(s, from).None?
    decreases |s| - from
  {
    if from < |s| {
      NoRangeWithoutDash(s, from + 1);
    }
  }

  lemma NoMaximumWithoutDash(raw: string)
    requires '-' !in raw
    ensures SplitAge(raw).maxAge == AgeNotAvailable
  {
    if raw != "" && raw != "N/A" {
      NoRangeWithoutDash(raw, 0);
    }
  }

  /** "A-B" reads as minimum A and maximum B. */
  lemma RangeRead(a: nat, b: nat)
    requires a < 100 && b < 100
    ensures SplitAge(NatToString(a) + "-" + NatToString(b)) == AgeRange(Years(a), Years(b))
  {
    var da, db := NatToString(a), NatToString(b);
    RangeAtParts(da, db);
    NumberValueOfNatToString(a);
    NumberValueOfNatToString(b);
    assert (da + "-" + db)[0] == da[0];
  }

  /** One or two digits, a dash and one or two digits read as a range at the start. */
  lemma RangeAtParts(da: string, db: string)
    requires 1 <= |da| <= 2 && AllDigits(da) && 1 <= |db| <= 2 && AllDigits(db)
    ensures RangeAt(da + "-" + db, 0) == Some((NumberValue(da), NumberValue(db)))
  {
    var s := da + "-" + db;
    var l := |da|;
    assert forall k :: 0 <= k < l ==> s[k] == da[k];
    assert forall k :: l < k < |s| ==> s[k] == db[k - l - 1];
    assert s[0..l] == da;
    assert s[l + 1..] == db;
    RangeAtShape(s, l);
  }

  /** A range of one or two digits on each side of a dash, and nothing else. */
  lemma RangeAtShape(s: string, l: nat)
    requires 1 <= l <= 2 && l + 2 <= |s| <= l + 3 && s[l] == '-'
    requires forall k :: 0 <= k < |s| && k != l ==> IsDigit(s[k])
    ensures RangeAt(s, 0) == Some((TwoDigitValue(s[0..l]), TwoDigitValue(s[l + 1..])))
  {
    assert OneOrTwoDigits(s, 0) == l;
    assert !IsSpace(s[l]) && !IsSpace(s[l + 1]);
    assert SpaceEnd(s, l) == l;
    assert SpaceEnd(s, l + 1) == l + 1;
    assert OneOrTwoDigits(s, l + 1) == |s| - l - 1;
  }

  /** "A+" reads as minimum A and no maximum. */
  lemma PlusRead(a: nat)
    requires a < 100
    ensures SplitAge(NatToString(a) + "+") == AgeRange(Years(a), AgeNotAvailable)
  {
    var da := NatToString(a);
    var s := da + "+";
    var l := |da|;
    assert s[..l] == da && s[l] == '+';
    assert s[0] == da[0];
    assert l == 2 ==> s[1] == da[1];
    assert '-' !in s;
    NoRangeWithoutDash(s, 0);
    assert OneOrTwoDigits(s, 0) == l;
    assert s[0..l] == da;
    NumberValueOfNatToString(a);
    assert PlusAt(s, 0) == Some(a);
  }
}
