/**
 * The StarNow date normalisers `normalizePostedDate` and
 * `normalizeDeadlineDate`. The clock is an input (`now`), and parsing an
 * absolute date such as "12 Nov 2024" (`new Date(cleaned)`) is an oracle
 * `parse` that yields a civil date or nothing for an invalid date.
 * An ISO date in the output is a day number.
 */
module Dates {
  import opened Wrappers
  import opened Strings
  import opened Scanners
  import opened Calendar
  import opened DatePhrases

  datatype NormalizedDate =
    | NotAvailable          // "N/A"
    | OnDay(day: int)       // an ISO date, yyyy-mm-dd
    | Verbatim(text: string) // the raw text, trimmed, when nothing could be read from it

  /** `new Date(text)`, reduced to the calendar date it denotes, or None for an invalid date. */
  type DateParser = string -> Option<CivilDate>

  /**
   * `raw.replace(/MARKER/i, "")`: removes the first occurrence of the
   * marker, ignoring case; `marker` is written in lower case.
   */
  function RemoveLabel(raw: string, marker: string): (r: string)
    ensures Contains(ToLower(raw), marker) ==> |r| == |raw| - |marker|
    ensures !Contains(ToLower(raw), marker) ==> r == raw
  {
    match IndexOf(ToLower(raw), marker)
    case Some(i) => raw[..i] + raw[i + |marker|..]
    case None => raw
  }

  /** `raw.replace(/LABEL/i, "").trim().toLowerCase()` */
  function Cleaned(raw: string, marker: string): string
  {
    ToLower(Trim(RemoveLabel(raw, marker)))
  }

  /** Text with no capital letters, no colon and no space at either end is its own cleaned form. */
  lemma CleanedPlain(raw: string, marker: string)
    requires ':' in marker && ':' !in raw
    requires forall k :: 0 <= k < |raw| ==> !IsUpper(raw[k])
    requires Trimmed(raw)
    ensures Cleaned(raw, marker) == raw
  {
    ToLowerOfLower(raw);
    NotOccursWithoutChar(raw, marker, ':');
    TrimOfTrimmed(raw);
  }

  /** How many days back the last `target` weekday before `day` lies. */
  function DaysSinceLast(day: int, target: Weekday): (d: nat)
    ensures 1 <= d <= 7
    ensures WeekdayOf(day - d) == target
    ensures forall x :: day - d < x < day ==> WeekdayOf(x) != target
  {
    var diff := WeekdayOf(day) - target;
    var d := if diff <= 0 then diff + 7 else diff;
    forall x | day - d < x < day ensures WeekdayOf(x) != target {
      WeekdayBack(day, day - x);
    }
    WeekdayBack(day, d);
    d
  }

  /** How many days ahead the next `target` weekday after `day` lies. */
  function DaysUntilNext(day: int, target: Weekday): (d: nat)
    ensures 1 <= d <= 7
    ensures WeekdayOf(day + d) == target
    ensures forall x :: day < x < day + d ==> WeekdayOf(x) != target
  {
    var diff := target - WeekdayOf(day);
    var d := if diff <= 0 then diff + 7 else diff;
    forall x | day < x < day + d ensures WeekdayOf(x) != target {
      WeekdayBack(x, x - day);
    }
    WeekdayBack(day + d, d);
    d
  }

  /** Going back `e` days, up to a week, moves the weekday back by `e`, modulo 7. */
  lemma WeekdayBack(day: int, e: nat)
    requires e <= 7
    ensures WeekdayOf(day - e) == if e <= WeekdayOf(day) then WeekdayOf(day) - e else WeekdayOf(day) - e + 7
  {
    var w := WeekdayOf(day);
    var q := (day + 4) / 7;
    assert day + 4 == 7 * q + w;
    if e <= w {
      assert day - e + 4 == 7 * q + (w - e);
    } else {
      assert day - e + 4 == 7 * (q - 1) + (w - e + 7);
    }
  }

  /** A posting date read as an absolute date: if it lies after today, it is taken to be last year's. */
  function PostedFromCivil(today: int, c: CivilDate): (d: int)
    ensures DaysFromCivil(c) <= today ==> d == DaysFromCivil(c)
    ensures DaysFromCivil(c) > today ==> d < DaysFromCivil(c) && DaysFromCivil(c) - d in {365, 366}
  {
    PreviousYearIsAYearEarlier(c);
    if DaysFromCivil(c) > today then DaysFromCivil(PreviousYear(c)) else DaysFromCivil(c)
  }

  /**
   * `normalizePostedDate`: "N/A" for an empty or "N/A" input; otherwise the
   * date read from the text with its "Posted:" label removed, trimmed and
   * lower-cased, and the raw text, trimmed, when no date can be read.
   */
  function NormalizePostedDate(now: Clock, raw: string, parse: DateParser): (r: NormalizedDate)
    requires now.Valid()
    ensures raw == "" || raw == "N/A" ==> r == NotAvailable
    ensures r.Verbatim? ==> r.text == Trim(raw)
  {
    if raw == "" || raw == "N/A" then NotAvailable
    else ReadPosted(now, Cleaned(raw, "posted:"), Trim(raw), parse)
  }

  /** `normalizePostedDate` with the weekday spellings corrected to take in "tuesday" and "thursday". */
  function NormalizePostedDateCorrected(now: Clock, raw: string, parse: DateParser): (r: NormalizedDate)
    requires now.Valid()
    ensures raw == "" || raw == "N/A" ==> r == NotAvailable
    ensures r.Verbatim? ==> r.text == Trim(raw)
  {
    if raw == "" || raw == "N/A" then NotAvailable
    else ReadPostedWith(now, Cleaned(raw, "posted:"), Trim(raw), parse, CorrectedForms)
  }

  /**
   * The posting date in cleaned text: in order, "N hours ago", "N days ago",
   * "yesterday", "today", a weekday name as the scraper spells it (its most
   * recent occurrence before today), an absolute date (moved back a year if
   * it lies in the future), and otherwise `verbatim`.
   */
  function ReadPosted(now: Clock, cleaned: string, verbatim: string, parse: DateParser): (r: NormalizedDate)
    requires now.Valid()
    ensures r.Verbatim? ==> r.text == verbatim
  {
    ReadPostedWith(now, cleaned, verbatim, parse, AsWrittenForms)
  }

  /** The same reading with the weekday spellings `forms`. */
  function ReadPostedWith(now: Clock, cleaned: string, verbatim: string, parse: DateParser, forms: seq<WeekdayForm>): (r: NormalizedDate)
    requires now.Valid()
    ensures r.Verbatim? ==> r.text == verbatim
  {
    ReadPostedPhrases(now, FindAgo(cleaned, "hour", 0), FindAgo(cleaned, "day", 0), cleaned, verbatim, parse, forms)
  }

  /** The same order of phrases, given the numbers of the leftmost "N hours ago" and "N days ago" phrases. */
  function ReadPostedPhrases(now: Clock, hoursAgo: Option<nat>, daysAgo: Option<nat>, cleaned: string, verbatim: string,
    parse: DateParser, forms: seq<WeekdayForm>): (r: NormalizedDate)
    requires now.Valid()
    ensures r.Verbatim? ==> r.text == verbatim
  {
    match hoursAgo
    case Some(n) => OnDay(DayHoursBefore(now, n))
    case None =>
      match daysAgo
      case Some(n) => OnDay(now.day - n)
      case None =>
        if Contains(cleaned, "yesterday") then OnDay(now.day - 1)
        else if Contains(cleaned, "today") then OnDay(now.day)
        else
          match FindWeekday(cleaned, forms, 0)
          case Some(target) => OnDay(now.day - DaysSinceLast(now.day, target))
          case None =>
            match parse(cleaned)
            case Some(c) => OnDay(PostedFromCivil(now.day, c))
            case None => Verbatim(verbatim)
  }

  /**
   * `normalizeDeadlineDate`: "N/A" for an empty or "N/A" input; otherwise a
   * weekday name (its next occurrence after today), else an absolute date as
   * parsed, future dates included, else the raw text, trimmed.
   */
  function NormalizeDeadlineDate(now: Clock, raw: string, parse: DateParser): (r: NormalizedDate)
    ensures raw == "" || raw == "N/A" ==> r == NotAvailable
    ensures r.Verbatim? ==> r.text == Trim(raw)
  {
    if raw == "" || raw == "N/A" then NotAvailable
    else ReadDeadline(now, Cleaned(raw, "deadline:"), Trim(raw), parse)
  }

  /** `normalizeDeadlineDate` with the weekday spellings corrected to take in "tuesday" and "thursday". */
  function NormalizeDeadlineDateCorrected(now: Clock, raw: string, parse: DateParser): (r: NormalizedDate)
    ensures raw == "" || raw == "N/A" ==> r == NotAvailable
    ensures r.Verbatim? ==> r.text == Trim(raw)
  {
    if raw == "" || raw == "N/A" then NotAvailable
    else ReadDeadlineWith(now, Cleaned(raw, "deadline:"), Trim(raw), parse, CorrectedForms)
  }

  /** The deadline in cleaned text, with the weekday spellings of the scraper. */
  function ReadDeadline(now: Clock, cleaned: string, verbatim: string, parse: DateParser): (r: NormalizedDate)
    ensures r.Verbatim? ==> r.text == verbatim
  {
    ReadDeadlineWith(now, cleaned, verbatim, parse, AsWrittenForms)
  }

  function ReadDeadlineWith(now: Clock, cleaned: string, verbatim: string, parse: DateParser, forms: seq<WeekdayForm>): (r: NormalizedDate)
    ensures r.Verbatim? ==> r.text == verbatim
  {
    match FindWeekday(cleaned, forms, 0)
    case Some(target) => OnDay(now.day + DaysUntilNext(now.day, target))
    case None =>
      match parse(cleaned)
      case Some(c) => OnDay(DaysFromCivil(c))
      case None => Verbatim(verbatim)
  }

  // ---------- what each branch yields ----------

  /** A posting date that is neither empty nor "N/A" is read from its cleaned text. */
  lemma PostedReadsCleaned(now: Clock, raw: string, parse: DateParser)
    requires now.Valid() && raw != "" && raw != "N/A"
    ensures NormalizePostedDate(now, raw, parse) == ReadPosted(now, Cleaned(raw, "posted:"), Trim(raw), parse)
  {
  }

  /** Text whose first phrase is "N days ago" is dated N days before today. */
  lemma PostedDaysAgoRead(now: Clock, cleaned: string, verbatim: string, parse: DateParser, n: nat)
    requires now.Valid()
    requires FindAgo(cleaned, "hour", 0).None? && FindAgo(cleaned, "day", 0) == Some(n)
    ensures ReadPosted(now, cleaned, verbatim, parse) == OnDay(now.day - n)
  {
    PhrasesDaysAgo(now, cleaned, verbatim, parse, n);
  }

  lemma PhrasesDaysAgo(now: Clock, cleaned: string, verbatim: string, parse: DateParser, n: nat)
    requires now.Valid()
    ensures ReadPostedPhrases(now, None, Some(n), cleaned, verbatim, parse, AsWrittenForms) == OnDay(now.day - n)
  {
  }

  /**
   * Text that mentions "yesterday" and has no "N hours ago" or "N days ago"
   * phrase is dated the day before today, whatever numbers it holds.
   */
  lemma PostedYesterday(now: Clock, cleaned: string, verbatim: string, parse: DateParser)
    requires now.Valid()
    requires FindAgo(cleaned, "hour", 0).None? && FindAgo(cleaned, "day", 0).None?
    requires Contains(cleaned, "yesterday")
    ensures ReadPosted(now, cleaned, verbatim, parse) == OnDay(now.day - 1)
  {
  }

  /**
   * Text that mentions "today", but not "yesterday", and has no "N hours
   * ago" or "N days ago" phrase is dated today, whatever numbers it holds.
   */
  lemma PostedToday(now: Clock, cleaned: string, verbatim: string, parse: DateParser)
    requires now.Valid()
    requires FindAgo(cleaned, "hour", 0).None? && FindAgo(cleaned, "day", 0).None?
    requires !Contains(cleaned, "yesterday") && Contains(cleaned, "today")
    ensures ReadPosted(now, cleaned, verbatim, parse) == OnDay(now.day)
  {
  }

  /** Text without digits holds no "ago" phrase, so a digit-free "yesterday" is the day before today. */
  lemma PostedYesterdayWithoutDigits(now: Clock, cleaned: string, verbatim: string, parse: DateParser)
    requires now.Valid()
    requires forall k :: 0 <= k < |cleaned| ==> !IsDigit(cleaned[k])
    requires Contains(cleaned, "yesterday")
    ensures ReadPosted(now, cleaned, verbatim, parse) == OnDay(now.day - 1)
  {
    NoAgoWithoutDigits(cleaned, "hour", 0);
    NoAgoWithoutDigits(cleaned, "day", 0);
    PostedYesterday(now, cleaned, verbatim, parse);
  }

  /** Text that names a weekday and no earlier phrase dates the posting to the last such day before today. */
  lemma PostedWeekdayIsLastOccurrence(now: Clock, cleaned: string, verbatim: string, parse: DateParser, t: Weekday)
    requires now.Valid()
    requires FindAgo(cleaned, "hour", 0).None? && FindAgo(cleaned, "day", 0).None?
    requires !Contains(cleaned, "yesterday") && !Contains(cleaned, "today")
    requires FindWeekday(cleaned, AsWrittenForms, 0) == Some(t)
    ensures var r := ReadPosted(now, cleaned, verbatim, parse);
      r.OnDay? && now.day - 7 <= r.day < now.day && WeekdayOf(r.day) == t &&
      forall x :: r.day < x < now.day ==> WeekdayOf(x) != t
  {
    var r := ReadPosted(now, cleaned, verbatim, parse);
    assert r == OnDay(now.day - DaysSinceLast(now.day, t));
    LastOccurrence(now.day, t, r.day);
  }

  /** An absolute posting date is kept unless it lies after today, when it moves back exactly one year. */
  lemma PostedAbsoluteMovesBackAYear(now: Clock, cleaned: string, verbatim: string, parse: DateParser, c: CivilDate)
    requires now.Valid()
    requires FindAgo(cleaned, "hour", 0).None? && FindAgo(cleaned, "day", 0).None?
    requires !Contains(cleaned, "yesterday") && !Contains(cleaned, "today")
    requires FindWeekday(cleaned, AsWrittenForms, 0).None?
    requires parse(cleaned) == Some(c)
    ensures var r := ReadPosted(now, cleaned, verbatim, parse);
      r.OnDay? &&
      (DaysFromCivil(c) <= now.day ==> r.day == DaysFromCivil(c)) &&
      (DaysFromCivil(c) > now.day ==> r.day == DaysFromCivil(PreviousYear(c)) && DaysFromCivil(c) - r.day in {365, 366})
  {
  }

  /** Text in which nothing can be read comes back as the raw text, trimmed. */
  lemma PostedUnreadableKeptVerbatim(now: Clock, raw: string, parse: DateParser)
    requires now.Valid() && raw != "" && raw != "N/A"
    requires FindAgo(Cleaned(raw, "posted:"), "hour", 0).None? && FindAgo(Cleaned(raw, "posted:"), "day", 0).None?
    requires !Contains(Cleaned(raw, "posted:"), "yesterday") && !Contains(Cleaned(raw, "posted:"), "today")
    requires FindWeekday(Cleaned(raw, "posted:"), AsWrittenForms, 0).None?
    requires parse(Cleaned(raw, "posted:")).None?
    ensures NormalizePostedDate(now, raw, parse) == Verbatim(Trim(raw))
  {
    PostedReadsCleaned(now, raw, parse);
  }

  /** An "N UNITs ago" phrase with a lower-case unit is its own cleaned and trimmed form. */
  lemma AgoPhraseIsClean(n: nat, unit: string)
    requires forall k :: 0 <= k < |unit| ==> IsLower(unit[k])
    ensures var raw := AgoPhrase(n, unit);
      raw != "" && raw != "N/A" && Cleaned(raw, "posted:") == raw && Trim(raw) == raw
  {
    var raw := AgoPhrase(n, unit);
    AgoPhraseChars(n, unit);
    forall k | 0 <= k < |raw| ensures !IsUpper(raw[k]) && raw[k] != ':' {
      assert raw[k] in raw;
      if raw[k] in unit {
        var i :| 0 <= i < |unit| && unit[i] == raw[k];
      }
    }
    assert raw != "N/A" by { assert IsDigit(raw[0]); }
    CleanedPlain(raw, "posted:");
    TrimOfTrimmed(raw);
  }

  /** A posting date that reads "N days ago" once cleaned, such as "Posted: 3 days ago", is dated N days before today. */
  lemma PostedDaysAgo(now: Clock, raw: string, parse: DateParser, n: nat)
    requires now.Valid() && raw != "" && raw != "N/A"
    requires Cleaned(raw, "posted:") == AgoPhrase(n, "day")
    ensures NormalizePostedDate(now, raw, parse) == OnDay(now.day - n)
  {
    var cleaned := AgoPhrase(n, "day");
    PostedReadsCleaned(now, raw, parse);
    NoHoursInDaysPhrase(n);
    AgoPhraseRead(n, "day");
    PostedDaysAgoRead(now, cleaned, Trim(raw), parse, n);
  }

  /** A posting date that reads "N hours ago" once cleaned is dated on the day of the moment N hours before now. */
  lemma PostedHoursAgo(now: Clock, raw: string, parse: DateParser, n: nat)
    requires now.Valid() && raw != "" && raw != "N/A"
    requires Cleaned(raw, "posted:") == AgoPhrase(n, "hour")
    ensures NormalizePostedDate(now, raw, parse) == OnDay(DayHoursBefore(now, n))
  {
    PostedReadsCleaned(now, raw, parse);
    AgoPhraseRead(n, "hour");
  }

  /** A weekday in a deadline means its next occurrence after today. */
  lemma DeadlineWeekdayIsNextOccurrence(now: Clock, cleaned: string, verbatim: string, parse: DateParser, t: Weekday)
    requires FindWeekday(cleaned, AsWrittenForms, 0) == Some(t)
    ensures var r := ReadDeadline(now, cleaned, verbatim, parse);
      r.OnDay? && now.day < r.day <= now.day + 7 && WeekdayOf(r.day) == t &&
      forall x :: now.day < x < r.day ==> WeekdayOf(x) != t
  {
    var r := ReadDeadline(now, cleaned, verbatim, parse);
    assert r == OnDay(now.day + DaysUntilNext(now.day, t));
    NextOccurrence(now.day, t, r.day);
  }

  /** An absolute deadline is kept as parsed, even when it lies in the past or the future. */
  lemma DeadlineAbsoluteKept(now: Clock, raw: string, parse: DateParser, c: CivilDate)
    requires raw != "" && raw != "N/A"
    requires FindWeekday(Cleaned(raw, "deadline:"), AsWrittenForms, 0).None?
    requires parse(Cleaned(raw, "deadline:")) == Some(c)
    ensures NormalizeDeadlineDate(now, raw, parse) == OnDay(DaysFromCivil(c))
  {
  }

  // ---------- the full names of Tuesday and Thursday ----------

  /** A full day name holds no number, no "yesterday" and no "today". */
  lemma DayNameHasNoOtherPhrase(k: Weekday)
    ensures FindAgo(DayNames[k], "hour", 0).None? && FindAgo(DayNames[k], "day", 0).None?
    ensures !Contains(DayNames[k], "yesterday") && !Contains(DayNames[k], "today")
  {
    DayNameHasNoAgo(k);
    DayNameIsNotRelative(k);
  }

  /** A full day name holds no digits, so no "N UNITs ago". */
  lemma DayNameHasNoAgo(k: Weekday)
    ensures FindAgo(DayNames[k], "hour", 0).None? && FindAgo(DayNames[k], "day", 0).None?
  {
    var name := DayNames[k];
    assert forall j :: 0 <= j < |name| ==> IsLower(name[j]);
    NoAgoWithoutDigits(name, "hour", 0);
    NoAgoWithoutDigits(name, "day", 0);
  }

  /** A full day name holds neither "yesterday" nor "today". */
  lemma DayNameIsNotRelative(k: Weekday)
    ensures !Contains(DayNames[k], "yesterday") && !Contains(DayNames[k], "today")
  {
    var name := DayNames[k];
    if k == 3 {
      assert name[0] == 'w';
      assert !OccursAt(name, "yesterday", 0);
    }
    NotOccursWithoutChar(name, "today", if k == 1 then 't' else 'o');
  }

  /** As written, a posting date of "Tuesday" is not read as a weekday: when no absolute date is parsed from it, it comes back verbatim. */
  lemma PostedTuesdayKeptVerbatim(now: Clock, raw: string, parse: DateParser)
    requires now.Valid() && raw != "" && raw != "N/A"
    requires Cleaned(raw, "posted:") == DayNames[2] && parse(DayNames[2]).None?
    ensures NormalizePostedDate(now, raw, parse) == Verbatim(Trim(raw))
  {
    assert DayNames[2] == "tuesday";
    DayNameHasNoOtherPhrase(2);
    TuesdayNotRecognisedAsWritten();
    PostedUnreadableKeptVerbatim(now, raw, parse);
  }

  /** As written, a deadline of "Thursday" is not read as a weekday either. */
  lemma DeadlineThursdayKeptVerbatim(now: Clock, raw: string, parse: DateParser)
    requires raw != "" && raw != "N/A"
    requires Cleaned(raw, "deadline:") == DayNames[4] && parse(DayNames[4]).None?
    ensures NormalizeDeadlineDate(now, raw, parse) == Verbatim(Trim(raw))
  {
    assert DayNames[4] == "thursday";
    ThursdayNotRecognisedAsWritten();
    DeadlineUnreadableKeptVerbatim(now, raw, parse);
  }

  /** A deadline with no weekday and no parsable date comes back as the raw text, trimmed. */
  lemma DeadlineUnreadableKeptVerbatim(now: Clock, raw: string, parse: DateParser)
    requires raw != "" && raw != "N/A"
    requires FindWeekday(Cleaned(raw, "deadline:"), AsWrittenForms, 0).None?
    requires parse(Cleaned(raw, "deadline:")).None?
    ensures NormalizeDeadlineDate(now, raw, parse) == Verbatim(Trim(raw))
  {
  }

  /** With the spellings `forms`, text whose first phrase is a weekday is dated to that day's last occurrence. */
  lemma PostedWeekdayWith(now: Clock, cleaned: string, verbatim: string, parse: DateParser, forms: seq<WeekdayForm>, t: Weekday)
    requires now.Valid()
    requires FindAgo(cleaned, "hour", 0).None? && FindAgo(cleaned, "day", 0).None?
    requires !Contains(cleaned, "yesterday") && !Contains(cleaned, "today")
    requires FindWeekday(cleaned, forms, 0) == Some(t)
    ensures ReadPostedWith(now, cleaned, verbatim, parse, forms) == OnDay(now.day - DaysSinceLast(now.day, t))
  {
  }

  /** With the corrected spellings, a posting date that names a day in full is that day's last occurrence. */
  lemma PostedFullDayNameCorrected(now: Clock, raw: string, parse: DateParser, k: Weekday)
    requires now.Valid() && raw != "" && raw != "N/A"
    requires Cleaned(raw, "posted:") == DayNames[k]
    ensures NormalizePostedDateCorrected(now, raw, parse) == OnDay(now.day - DaysSinceLast(now.day, k))
  {
    DayNameHasNoOtherPhrase(k);
    DayNamesRecognised(k);
    PostedWeekdayWith(now, Cleaned(raw, "posted:"), Trim(raw), parse, CorrectedForms, k);
  }

  /** With the corrected spellings, a deadline that names a day in full is that day's next occurrence. */
  lemma DeadlineFullDayNameCorrected(now: Clock, raw: string, parse: DateParser, k: Weekday)
    requires raw != "" && raw != "N/A"
    requires Cleaned(raw, "deadline:") == DayNames[k]
    ensures NormalizeDeadlineDateCorrected(now, raw, parse) == OnDay(now.day + DaysUntilNext(now.day, k))
  {
    DayNamesRecognised(k);
    DeadlineWeekdayWith(now, Cleaned(raw, "deadline:"), Trim(raw), parse, CorrectedForms, k);
  }

  lemma DeadlineWeekdayWith(now: Clock, cleaned: string, verbatim: string, parse: DateParser, forms: seq<WeekdayForm>, t: Weekday)
    requires FindWeekday(cleaned, forms, 0) == Some(t)
    ensures ReadDeadlineWith(now, cleaned, verbatim, parse, forms) == OnDay(now.day + DaysUntilNext(now.day, t))
  {
  }

  lemma NextOccurrence(day: int, t: Weekday, e: int)
    requires e == day + DaysUntilNext(day, t)
    ensures day < e <= day + 7 && WeekdayOf(e) == t
    ensures forall x :: day < x < e ==> WeekdayOf(x) != t
  {
  }

  lemma LastOccurrence(day: int, t: Weekday, e: int)
    requires e == day - DaysSinceLast(day, t)
    ensures day - 7 <= e < day && WeekdayOf(e) == t
    ensures forall x :: e < x < day ==> WeekdayOf(x) != t
  {
  }
}
