/**
 * The relative-date phrases the StarNow date normalisers look for in the
 * cleaned, lower-cased text: `/(\d+)\s*hour[s]?\s*ago/`,
 * `/(\d+)\s*day[s]?\s*ago/` and the weekday-name expression
 * `/\b(sun(day)?|mon(day)?|tue(s)?|wed(nesday)?|thu(r(s)?)?|fri(day)?|sat(urday)?)\b/`.
 */
module DatePhrases {
  import opened Wrappers
  import opened Strings
  import opened Scanners

  // ---------- "N hours ago", "N days ago" ----------

  /**
   * The number N when `N UNIT[s] ago` matches at `i`. `\d+` takes the whole
   * digit run and `\s*` the whole space run: giving characters back would
   * leave a digit or a space where a letter is needed, so no backtracking
   * can succeed. Likewise once `s` is taken after the unit, leaving it out
   * would put `s` where `ago` must start.
   */
  function AgoAt(s: string, i: nat, unit: string): (n: Option<nat>)
    requires i <= |s|
  {
    var d := DigitEnd(s, i);
    if d == i then None
    else
      var u := SpaceEnd(s, d);
      if !OccursAt(s, unit, u) then None
      else
        var m := u + |unit|;
        var m' := if m < |s| && s[m] == 's' then m + 1 else m;
        if OccursAt(s, "ago", SpaceEnd(s, m')) then Some(NumberValue(s[i..d])) else None
  }

  /** The scan at every position of the text, and no match past its end. */
  function AgoScan(s: string, unit: string): nat -> Option<nat> {
    (j: nat) => if j <= |s| then AgoAt(s, j, unit) else None
  }

  /** The number of the leftmost `N UNIT[s] ago` at or after `from`. */
  function FindAgo(s: string, unit: string, from: nat): Option<nat>
    requires from <= |s|
  {
    Leftmost(AgoScan(s, unit), from, |s|)
  }

  /** FindAgo reads the leftmost phrase: `i` is the first position, from `from` on, where one matches. */
  lemma FindAgoLeftmost(s: string, unit: string, from: nat) returns (i: nat)
    requires from <= |s| && FindAgo(s, unit, from).Some?
    ensures from <= i <= |s| && AgoAt(s, i, unit) == FindAgo(s, unit, from)
    ensures forall j :: from <= j < i ==> AgoAt(s, j, unit).None?
  {
    i := LeftmostFound(AgoScan(s, unit), from, |s|);
    forall j | from <= j < i ensures AgoAt(s, j, unit).None? {
      assert AgoScan(s, unit)(j).None?;
    }
  }

  /** FindAgo finds nothing exactly when no position from `from` on matches. */
  lemma FindAgoNone(s: string, unit: string, from: nat)
    requires from <= |s|
    ensures FindAgo(s, unit, from).None? <==> forall i :: from <= i <= |s| ==> AgoAt(s, i, unit).None?
  {
    LeftmostNone(AgoScan(s, unit), from, |s|);
    forall i | from <= i <= |s| ensures AgoScan(s, unit)(i) == AgoAt(s, i, unit) {
    }
  }

  /** A text in which the unit does not occur holds no `N UNIT ago` phrase. */
  lemma NoAgoWithoutUnit(s: string, unit: string, from: nat)
    requires from <= |s|
    requires forall i :: !OccursAt(s, unit, i)
    ensures FindAgo(s, unit, from).None?
  {
    FindAgoNone(s, unit, from);
  }

  /** A text without digits holds no `N UNIT ago` phrase. */
  lemma NoAgoWithoutDigits(s: string, unit: string, from: nat)
    requires from <= |s|
    requires forall k :: 0 <= k < |s| ==> !IsDigit(s[k])
    ensures FindAgo(s, unit, from).None?
  {
    FindAgoNone(s, unit, from);
    forall i | from <= i <= |s| ensures AgoAt(s, i, unit).None? {
      assert DigitEnd(s, i) == i;
    }
  }

  /** "N UNITs ago": the digits of N, a space, the unit, and "s ago". */
  function AgoPhrase(n: nat, unit: string): string {
    NatToString(n) + " " + unit + "s ago"
  }

  /** The pieces of an "N UNITs ago" phrase, by position. */
  lemma AgoPhraseShape(n: nat, unit: string)
    ensures var s, l := AgoPhrase(n, unit), |NatToString(n)|;
      |s| == l + 1 + |unit| + 5 &&
      s[..l] == NatToString(n) && s[l] == ' ' && OccursAt(s, unit, l + 1) &&
      s[l + 1 + |unit|] == 's' && s[l + 1 + |unit| + 1] == ' ' && OccursAt(s, "ago", l + 1 + |unit| + 2) &&
      (forall k :: 0 <= k < l ==> IsDigit(s[k])) && (unit != [] ==> s[l + 1] == unit[0])
  {
    var s, l := AgoPhrase(n, unit), |NatToString(n)|;
    assert s == NatToString(n) + [' '] + unit + ['s', ' ', 'a', 'g', 'o'];
    assert s[l + 1..l + 1 + |unit|] == unit;
    assert s[l + 1 + |unit| + 2..l + 1 + |unit| + 5] == "ago";
    forall k | 0 <= k < l ensures IsDigit(s[k]) {
      assert s[k] == NatToString(n)[k];
    }
  }

  /** Where the scanners stop in an "N UNITs ago" phrase. */
  lemma AgoPhraseRuns(n: nat, unit: string)
    requires unit != [] && !IsSpace(unit[0])
    ensures var s, l := AgoPhrase(n, unit), |NatToString(n)|;
      DigitEnd(s, 0) == l && SpaceEnd(s, l) == l + 1 &&
      SpaceEnd(s, l + 1 + |unit| + 1) == l + 1 + |unit| + 2
  {
    var s, l := AgoPhrase(n, unit), |NatToString(n)|;
    AgoPhraseShape(n, unit);
    AgoRuns(s, l, |unit|);
  }

  /** The scanners' stops in a text laid out as digits, a space, a unit of `u` characters, 's', a space and "ago". */
  lemma AgoRuns(s: string, l: nat, u: nat)
    requires 1 <= u && |s| == l + u + 6
    requires forall k :: 0 <= k < l ==> IsDigit(s[k])
    requires s[l] == ' ' && !IsSpace(s[l + 1]) && s[l + u + 2] == ' ' && s[l + u + 3] == 'a'
    ensures DigitEnd(s, 0) == l && SpaceEnd(s, l) == l + 1 && SpaceEnd(s, l + u + 2) == l + u + 3
  {
    RunEndAt(s, 0, l, IsDigit);
    RunEndAt(s, l, l + 1, IsSpace);
    RunEndAt(s, l + u + 2, l + u + 3, IsSpace);
  }

  /** The characters of an "N UNITs ago" phrase, and how it starts and ends. */
  lemma AgoPhraseChars(n: nat, unit: string)
    ensures var s := AgoPhrase(n, unit);
      (forall c :: c in s ==> IsDigit(c) || c in " sago" || c in unit) &&
      IsDigit(s[0]) && s[|s| - 1] == 'o'
  {
    var digits := NatToString(n);
    var s := AgoPhrase(n, unit);
    assert s == digits + (" " + unit + "s ago");
    assert s[0] == digits[0];
    forall c | c in digits ensures IsDigit(c) {
      var k :| 0 <= k < |digits| && digits[k] == c;
    }
  }

  /** An "N days ago" phrase holds no "N hours ago" phrase. */
  lemma NoHoursInDaysPhrase(n: nat)
    ensures FindAgo(AgoPhrase(n, "day"), "hour", 0).None?
  {
    var s := AgoPhrase(n, "day");
    AgoPhraseChars(n, "day");
    assert 'h' !in s;
    NotOccursWithoutChar(s, "hour", 'h');
    NoAgoWithoutUnit(s, "hour", 0);
  }

  /** The scan at the start of an "N UNITs ago" phrase reads N. */
  lemma AgoAtPhrase(n: nat, unit: string)
    requires unit != [] && !IsSpace(unit[0])
    ensures AgoAt(AgoPhrase(n, unit), 0, unit) == Some(n)
  {
    var s, l := AgoPhrase(n, unit), |NatToString(n)|;
    AgoPhraseShape(n, unit);
    AgoPhraseRuns(n, unit);
    NumberValueOfNatToString(n);
    AgoAtPositions(s, l, unit);
  }

  /** The scan at 0 of a text whose digits, spaces, unit, 's' and "ago" lie where the scanners stop. */
  lemma AgoAtPositions(s: string, l: nat, unit: string)
    requires 0 < l && l + |unit| + 6 == |s|
    requires DigitEnd(s, 0) == l && SpaceEnd(s, l) == l + 1 && OccursAt(s, unit, l + 1)
    requires s[l + 1 + |unit|] == 's' && SpaceEnd(s, l + |unit| + 2) == l + |unit| + 3
    requires OccursAt(s, "ago", l + |unit| + 3)
    ensures AgoAt(s, 0, unit) == Some(NumberValue(s[..l]))
  {
    assert s[0..l] == s[..l];
  }

  /** The phrase "N UNITs ago", as a site writes it, is read back as N. */
  lemma AgoPhraseRead(n: nat, unit: string)
    requires unit != [] && !IsSpace(unit[0])
    ensures FindAgo(AgoPhrase(n, unit), unit, 0) == Some(n)
  {
    AgoAtPhrase(n, unit);
  }

  // ---------- weekday names ----------

  type Weekday = w: nat | w < 7

  /** One spelling the weekday expression accepts, with the day `weekdayMap` gives its first three letters. */
  datatype WeekdayForm = WeekdayForm(text: string, day: Weekday)

  /** The spellings of the expression as the scrapers write it, longest first within a day. */
  const AsWrittenForms: seq<WeekdayForm> := [
    WeekdayForm("sunday", 0), WeekdayForm("sun", 0),
    WeekdayForm("monday", 1), WeekdayForm("mon", 1),
    WeekdayForm("tues", 2), WeekdayForm("tue", 2),
    WeekdayForm("wednesday", 3), WeekdayForm("wed", 3),
    WeekdayForm("thurs", 4), WeekdayForm("thur", 4), WeekdayForm("thu", 4),
    WeekdayForm("friday", 5), WeekdayForm("fri", 5),
    WeekdayForm("saturday", 6), WeekdayForm("sat", 6)
  ]

  /** The same spellings with the full names of Tuesday and Thursday added. */
  const CorrectedForms: seq<WeekdayForm> := [
    WeekdayForm("sunday", 0), WeekdayForm("sun", 0),
    WeekdayForm("monday", 1), WeekdayForm("mon", 1),
    WeekdayForm("tuesday", 2), WeekdayForm("tues", 2), WeekdayForm("tue", 2),
    WeekdayForm("wednesday", 3), WeekdayForm("wed", 3),
    WeekdayForm("thursday", 4), WeekdayForm("thurs", 4), WeekdayForm("thur", 4), WeekdayForm("thu", 4),
    WeekdayForm("friday", 5), WeekdayForm("fri", 5),
    WeekdayForm("saturday", 6), WeekdayForm("sat", 6)
  ]

  const DayNames: seq<string> := ["sunday", "monday", "tuesday", "wednesday", "thursday", "friday", "saturday"]

  /** The form occurs at `i` and ends at a word boundary. */
  predicate Fits(s: string, i: nat, f: WeekdayForm) {
    OccursAt(s, f.text, i) && BoundaryAt(s, i + |f.text|)
  }

  /** `\b FORM \b` for the first form of `forms` that fits at `i`. */
  function FormAt(s: string, i: nat, forms: seq<WeekdayForm>): (w: Option<Weekday>)
    requires i <= |s|
    ensures w.Some? ==> exists k :: 0 <= k < |forms| && forms[k].day == w.value && Fits(s, i, forms[k])
    ensures w.None? ==> forall k :: 0 <= k < |forms| ==> !Fits(s, i, forms[k])
  {
    if forms == [] then None
    else if Fits(s, i, forms[0]) then Some(forms[0].day)
    else
      var w := FormAt(s, i, forms[1..]);
      assert w.Some? ==> exists k :: 0 <= k < |forms[1..]| && forms[1..][k].day == w.value && Fits(s, i, forms[1..][k]);
      w
  }

  /** When form `k` is the first that fits, FormAt names its day. */
  lemma {:induction false} FormAtFirst(s: string, i: nat, forms: seq<WeekdayForm>, k: nat)
    requires i <= |s| && k < |forms|
    requires Fits(s, i, forms[k])
    requires forall j :: 0 <= j < k ==> !Fits(s, i, forms[j])
    ensures FormAt(s, i, forms) == Some(forms[k].day)
  {
    if k > 0 {
      assert !Fits(s, i, forms[0]);
      FormAtFirst(s, i, forms[1..], k - 1);
    }
  }

  function WeekdayAt(s: string, i: nat, forms: seq<WeekdayForm>): Option<Weekday>
    requires i <= |s|
  {
    if BoundaryBefore(s, i) then FormAt(s, i, forms) else None
  }

  function WeekdayScan(s: string, forms: seq<WeekdayForm>): nat -> Option<Weekday> {
    (i: nat) => if i <= |s| then WeekdayAt(s, i, forms) else None
  }

  /** The weekday named by the leftmost match at or after `from`. */
  function FindWeekday(s: string, forms: seq<WeekdayForm>, from: nat): (w: Option<Weekday>)
    requires from <= |s|
    ensures w.Some? ==>
      exists i :: from <= i <= |s| && WeekdayAt(s, i, forms) == w &&
        forall j :: from <= j < i ==> WeekdayAt(s, j, forms).None?
  {
    var scan := WeekdayScan(s, forms);
    assert forall i: nat :: i <= |s| ==> scan(i) == WeekdayAt(s, i, forms);
    Leftmost(scan, from, |s|)
  }

  lemma FindWeekdayNone(s: string, forms: seq<WeekdayForm>, from: nat)
    requires from <= |s|
    requires forall i :: from <= i <= |s| ==> WeekdayAt(s, i, forms).None?
    ensures FindWeekday(s, forms, from).None?
  {
    var scan := WeekdayScan(s, forms);
    forall i | from <= i <= |s| ensures scan(i).None? {
    }
    LeftmostNone(scan, from, |s|);
  }

  /** In a single word, only the start of the word can begin a weekday match. */
  lemma OnlyWordStart(s: string, forms: seq<WeekdayForm>)
    requires forall k :: 0 <= k < |s| ==> IsLetter(s[k])
    ensures forall i :: 0 < i <= |s| ==> WeekdayAt(s, i, forms).None?
  {
    forall i | 0 < i <= |s| ensures WeekdayAt(s, i, forms).None? {
      assert IsWordChar(s[i - 1]);
    }
  }

  /** As written, the expression does not recognise "tuesday": `tue(s)?` must be followed by `\b`. */
  lemma TuesdayNotRecognisedAsWritten()
    ensures FindWeekday("tuesday", AsWrittenForms, 0).None?
  {
    var s := "tuesday";
    OnlyWordStart(s, AsWrittenForms);
    forall k | 0 <= k < |AsWrittenForms| ensures !Fits(s, 0, AsWrittenForms[k]) {
    }
    FindWeekdayNone(s, AsWrittenForms, 0);
  }

  /** As written, the expression does not recognise "thursday" either: `thu(r(s)?)?` must be followed by `\b`. */
  lemma ThursdayNotRecognisedAsWritten()
    ensures FindWeekday("thursday", AsWrittenForms, 0).None?
  {
    var s := "thursday";
    OnlyWordStart(s, AsWrittenForms);
    assert IsWordChar(s[3]) && IsWordChar(s[4]) && IsWordChar(s[5]);
    forall k | 0 <= k < |AsWrittenForms| ensures !Fits(s, 0, AsWrittenForms[k]) {
    }
    FindWeekdayNone(s, AsWrittenForms, 0);
  }

  /** With the corrected spellings, every full day name is recognised as its own day. */
  lemma DayNamesRecognised(k: Weekday)
    ensures FindWeekday(DayNames[k], CorrectedForms, 0) == Some(k)
  {
    var first := [0, 2, 4, 7, 9, 13, 15][k];
    DayNameFirstForm(k, first);
    FormAtFirst(DayNames[k], 0, CorrectedForms, first);
  }

  /** The first corrected spelling that fits a full day name is one of that day's. */
  lemma DayNameFirstForm(k: Weekday, first: nat)
    requires first == [0, 2, 4, 7, 9, 13, 15][k]
    ensures first < |CorrectedForms| && CorrectedForms[first].day == k && Fits(DayNames[k], 0, CorrectedForms[first])
    ensures forall j :: 0 <= j < first ==> !Fits(DayNames[k], 0, CorrectedForms[j])
  {
    var s := DayNames[k];
    assert Fits(s, 0, CorrectedForms[first]);
    forall j | 0 <= j < first ensures !Fits(s, 0, CorrectedForms[j]) {
    }
  }
}
