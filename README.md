# Casting-call scrapers, modelled in Dafny

This project models the core of a set of casting-call scrapers. Three
scrapers walk the result pages of casting sites:

- StarNow (`starnow.js`);
- Backstage (`scraper.js`);
- Mandy (`mandyscraper.js`).

On each result page a scraper:

1. reduces the listing cards to summaries (title, link, location, posted date) and de-duplicates them by link;
2. opens every listing's detail page and reads the project name, the dates, the location and the roles;
3. builds one record per listing;
4. posts the page's records to a webhook.

StarNow does more work on the detail page:

- it chooses the "Dates & Locations" text that looks most like a date;
- it reads a shoot date and a shoot location from that text;
- it looks up missing role pays on the roles' own pages;
- it normalises the posted and deadline dates against the clock;
- it splits locations into city, state and country, and age ranges into a minimum and a maximum.

Backstage and Mandy loop over their pages with an interrupt handler that stops the loop. A fourth script (`facebook.js`) parses the texts of up to 25 Facebook posts:

- labelled fields ("PROJECT:", "ROLE:", ...);
- a usage line;
- an age and a gender;
- an e-mail address;
- whether the post is a casting call.

The browser is a parameter of the model. A page is the texts that the scripts' selectors would find on it, with `None` for an absent element:

- `open` gives a detail page, or None when visiting it fails;
- `visit` gives a role page;
- `scrape` and `interrupt` give what happens to a result page.

A regular expression with a simple shape is a hand-written scanner that follows JavaScript's rules: leftmost match, greedy quantifiers, backtracking. Dates are day numbers (day 0 is 1970-01-01), and the clock is an input.

Modules, one per file:

- `Wrappers`: `Option`.
- `Strings`: trim, lower case, includes, split, `norm`.
- `Scanners`: character runs and labels.
- `Dedup`: first-occurrence filters.
- `Calendar`: weekdays and civil dates.
- `DatePhrases`: "N days ago" and weekday names.
- `Dates`: `normalizePostedDate` and `normalizeDeadlineDate`.
- `Splitters`: `splitLocation` and `splitAge`.
- `Listings`: listing cards.
- `ShootDetails`: the dates-and-locations logic.
- `Roles`: role blocks and pay enrichment.
- `Records`: detail pages, records and a page of listings.
- `Pagination`: the page loops; the Backstage/Mandy loop is the class `Scraper`.
- `FacebookPosts`: the post parser.

## Model

| member | source | states |
|---|---|---|
| Strings.Norm | starnow.js:221-225 | `norm` gives "" exactly for blank text; otherwise it has no space at either end, and every space is a single ' '; the non-space characters are those of the input, in order; the result is the words of the input (its maximal runs of non-space characters) joined by one space each, so a run of whitespace between two words becomes exactly one space |
| Strings.WordsHaveNoSpace | starnow.js:221-225 | each word that `norm` keeps holds no whitespace, so the single spaces of its result are exactly the boundaries between words |
| Strings.NormIdempotent | starnow.js:221-225 | normalising twice gives what normalising once gives |
| Strings.Trim | starnow.js:22 | `trim` removes the leading and trailing spaces and keeps the middle: the result sits inside the text, and neither of its ends is a space |
| Strings.TrimIdempotent | starnow.js:22 | trimming trimmed text changes nothing |
| Strings.Split | starnow.js:85 | `split(",")` gives at least one part; no part has a comma, and joining the parts with commas gives back the text |
| Calendar.DayHoursBefore | starnow.js:27-28 | going back N hours stays on today while N is at most the current hour, and otherwise lands the computed number of days earlier |
| Calendar.PreviousYearIsAYearEarlier | starnow.js:50 | `setFullYear(year - 1)` moves a date back by 365 or 366 days |
| Dates.RemoveLabel | starnow.js:22 | removing the label, in any case, shortens the text by the label's length when it occurs, and otherwise changes nothing |
| Dates.CleanedPlain | starnow.js:22 | lower-case text with no colon and no outer spaces is its own cleaned form |
| Dates.DaysSinceLast | starnow.js:40-45 | the offset is 1 to 7 days; it lands on the target weekday, and no day in between is that weekday |
| Dates.DaysUntilNext | starnow.js:64-69 | the offset is 1 to 7 days ahead, on the target weekday, with no earlier such day |
| Dates.PostedFromCivil | starnow.js:49-50 | an absolute date up to today is kept; a future date moves back exactly one year (365 or 366 days) |
| Dates.NormalizePostedDate | starnow.js:20-53 | with the weekday spellings as written: "" or "N/A" gives "N/A"; text that yields no date comes back as the raw text, trimmed |
| Dates.ReadPosted | starnow.js:27-52 | the rules as written, weekday spellings included: when no rule reads a date, the result is the text it was given to fall back on |
| Dates.NormalizeDeadlineDate | starnow.js:55-77 | with the weekday spellings as written: "" or "N/A" gives "N/A"; text that yields no date comes back as the raw text, trimmed |
| Dates.NormalizePostedDateCorrected | starnow.js:20-53 | the corrected normaliser, which also knows "tuesday" and "thursday": "" or "N/A" gives "N/A"; unreadable text comes back trimmed |
| Dates.NormalizeDeadlineDateCorrected | starnow.js:55-77 | the corrected deadline normaliser: "" or "N/A" gives "N/A"; unreadable text comes back trimmed |
| Dates.ReadDeadline | starnow.js:60-76 | the rules as written, weekday spellings included: when no rule reads a date, the result is the text it was given to fall back on |
| Dates.PostedReadsCleaned | starnow.js:21-22 | any other text is read with its "Posted:" label removed, trimmed and lower-cased |
| Dates.PostedDaysAgoRead | starnow.js:30-31 | "N days ago", with no "hours ago" phrase before it, dates the posting N days back |
| Dates.PostedYesterday | starnow.js:27-33 | text that matches neither "N hour(s) ago" nor "N day(s) ago" and mentions "yesterday" is dated the day before today |
| Dates.PostedYesterdayWithoutDigits | starnow.js:27-33 | text with no digit cannot match an "ago" phrase, so "yesterday" in it gives the day before today |
| Dates.PostedToday | starnow.js:27-34 | text that matches neither "ago" phrase, does not mention "yesterday" and mentions "today" is dated today |
| Dates.PostedWeekdayIsLastOccurrence | starnow.js:37-46 | a weekday that the spellings as written find dates the posting on the most recent such day before today, within the last week |
| Dates.PostedAbsoluteMovesBackAYear | starnow.js:48-50 | when the spellings as written find no weekday, an absolute posting date is kept unless it is in the future; a future date is moved back exactly a year |
| Dates.PostedUnreadableKeptVerbatim | starnow.js:52 | text from which no rule as written reads anything is returned trimmed |
| Dates.AgoPhraseIsClean | starnow.js:22 | an "N units ago" phrase is unchanged by cleaning and trimming |
| Dates.PostedDaysAgo | starnow.js:22-31 | a posted date that cleans to "N days ago" is dated N days before today |
| Dates.PostedHoursAgo | starnow.js:22-28 | a posted date that cleans to "N hours ago" is dated on the day of the moment N hours ago |
| Dates.DeadlineWeekdayIsNextOccurrence | starnow.js:60-70 | a weekday that the spellings as written find in a deadline means its next occurrence after today, within a week |
| Dates.DeadlineAbsoluteKept | starnow.js:72-74 | when the spellings as written find no weekday, an absolute deadline is kept as parsed, future or past |
| Dates.DeadlineUnreadableKeptVerbatim | starnow.js:76 | a deadline from which neither a weekday nor a date can be read is returned trimmed |
| Dates.PostedTuesdayKeptVerbatim | starnow.js:38 | as written, a posted date of "Tuesday" that `new Date` cannot read comes back as the raw text, trimmed |
| Dates.DeadlineThursdayKeptVerbatim | starnow.js:62 | as written, a deadline of "Thursday" that `new Date` cannot read comes back as the raw text, trimmed |
| Dates.PostedFullDayNameCorrected | starnow.js:37-46 | corrected, every full day name dates the posting on the last such day before today |
| Dates.DeadlineFullDayNameCorrected | starnow.js:60-70 | corrected, every full day name dates the deadline on the next such day after today |
| Dates.PostedWeekdayWith | starnow.js:37-46 | for any spelling table, a weekday found dates the posting that many days back to its last occurrence |
| Dates.DeadlineWeekdayWith | starnow.js:60-70 | for any spelling table, a weekday found dates the deadline forward to its next occurrence |
| Dates.NextOccurrence | starnow.js:66-68 | a date moved forward to the next weekday lands on that weekday, within 7 days, and skips no earlier one |
| Dates.LastOccurrence | starnow.js:42-44 | a date moved back to the last weekday lands on that weekday, within 7 days, and skips no later one |
| DatePhrases.FindAgoLeftmost | starnow.js:27 | a phrase found is the one at the leftmost position where `(\d+)\s*UNIT[s]?\s*ago` matches: no position before it matches |
| DatePhrases.FindAgoNone | starnow.js:27 | no phrase is found only when no position matches |
| DatePhrases.NoAgoWithoutUnit | starnow.js:27-31 | text in which the unit never occurs has no "N units ago" phrase |
| DatePhrases.NoAgoWithoutDigits | starnow.js:27-31 | text without digits has no "N units ago" phrase |
| DatePhrases.NoHoursInDaysPhrase | starnow.js:27-31 | an "N days ago" phrase is never read as hours |
| DatePhrases.AgoAtPhrase | starnow.js:27 | the scan at the start of "N units ago" reads N |
| DatePhrases.AgoPhraseRead | starnow.js:27-31 | "N units ago" is read back as N: the number round-trips through the phrase |
| DatePhrases.FormAt | starnow.js:38 | a day is named only when one of its spellings fits at the position between word boundaries; None means no spelling fits there |
| DatePhrases.FormAtFirst | starnow.js:38 | the first spelling that fits gives the day |
| DatePhrases.FindWeekday | starnow.js:38 | the day found is the one named at the leftmost position where a spelling fits; no earlier position names a day |
| DatePhrases.FindWeekdayNone | starnow.js:38 | with no spelling at any position, no day is found |
| DatePhrases.OnlyWordStart | starnow.js:38 | inside a word, only the word's start can begin a match |
| DatePhrases.TuesdayNotRecognisedAsWritten | starnow.js:38 | with the spellings as written, "tuesday" is not recognised |
| DatePhrases.ThursdayNotRecognisedAsWritten | starnow.js:38 | with the spellings as written, "thursday" is not recognised |
| DatePhrases.DayNamesRecognised | starnow.js:37-38 | with the full names of Tuesday and Thursday added, every full day name is recognised as its own day |
| Dedup.KeepFirstsIsSubsequence | starnow.js:192-193 | the kept summaries appear in the input in the same order, and each has a link |
| Dedup.KeepFirstsKeysUnique | starnow.js:192-193 | no two kept summaries share a link |
| Dedup.KeepFirstsKeys | starnow.js:192-193 | a link is kept exactly when it is non-empty and some summary has it |
| Dedup.KeepFirstsFirstWins | starnow.js:192-193 | each kept summary is the first in the input with its link |
| Dedup.KeepFirstsStep | starnow.js:193 | one step of the `seen` filter: an unseen link with a value is appended, and anything else is dropped |
| Dedup.KeepFirstByKey | starnow.js:192-193 | the loop with a `seen` set keeps exactly the first summary for each non-empty link |
| Dedup.UniqueInOrder | starnow.js:292-295 | the `uniq.includes` loop keeps each candidate once, in first-seen order |
| Splitters.SplitLocation | starnow.js:81-101 | "" or "N/A" gives N/A in all three parts; each part is "N/A" or a trimmed piece; text without a comma is the country |
| Splitters.LocationTwoParts | starnow.js:91-93 | "City, State" gives the city and state, and no country |
| Splitters.LocationThreeParts | starnow.js:94-98 | "City, State, Country", with anything after it, gives the three trimmed parts |
| Splitters.LocationOfThreeOrMore | starnow.js:94-98 | text with three or more parts uses the first three |
| Splitters.RangeAt | starnow.js:108 | a range read at a position has two ages below 100 (one or two digits) |
| Splitters.RangeAtIsMatch | starnow.js:108 | a range read at a position is a match there, and its ages are the two digit runs of that match |
| Splitters.RangeAtNoneIsNoMatch | starnow.js:108 | no range read at a position means no match starts there |
| Splitters.RangeMatchForced | starnow.js:108 | a match at a position takes its digit and space runs greedily, so it is the one the scan reads |
| Splitters.TwoDigitValue | starnow.js:110 | `Number` of one or two digits is their decimal value, below 100 |
| Splitters.FindRange | starnow.js:108 | the range found is the one read at the leftmost position where `(\d{1,2})\s*-\s*(\d{1,2})` matches; None means no position matches |
| Splitters.PlusAt | starnow.js:113 | "A+" read at a position has an age below 100 |
| Splitters.PlusAtIsMatch | starnow.js:113 | "A+" read at a position is a match there with A its digits; nothing read means no match starts there |
| Splitters.FindPlus | starnow.js:113 | the age found is the one read at the leftmost position where `(\d{1,2})\+` matches; None means no position matches |
| Splitters.SplitAge | starnow.js:104-119 | "" or "N/A" gives no ages; a range anywhere gives its minimum and maximum; otherwise "A+" gives a minimum only; otherwise no ages; ages are below 100 |
| Splitters.NoRangeWithoutDash | starnow.js:108 | text without '-' holds no range |
| Splitters.NoMaximumWithoutDash | starnow.js:108-118 | text without '-' gives no maximum age |
| Splitters.RangeRead | starnow.js:108-111 | "A-B" reads back as minimum A and maximum B |
| Splitters.PlusRead | starnow.js:113-116 | "A+" reads back as minimum A and no maximum |
| Listings.LinkOf | starnow.js:170 | the link is the `href` up to its first '?': a prefix without '?', and either the whole `href` or followed there by '?' |
| Listings.PostedOnSpan | starnow.js:186-187 | the posted date is never "", is trimmed and is one line; without "posted:" it is "N/A" |
| Listings.StarNowPosted | starnow.js:177-188 | the posted date is never "", is trimmed and is one line; it is "N/A" with no "Posted:" span, or when the span's joined text has no "Posted:" label |
| Listings.StarNowListing | starnow.js:167-190 | a card is skipped exactly when it has no casting link; the summary keeps the link without its query and the trimmed title; its location is the trimmed location element, else "N/A"; its posted date is the reading of the "Posted:" span |
| Listings.PostedOnSpanRead | starnow.js:186-187 | "Posted: d" reads back as d |
| Listings.StarNowPostedRead | starnow.js:177-188 | a span whose text nodes are "Posted:" and a trimmed one-line d gives posted date d |
| Listings.FindWord | scraper.js:99 | the word found is the keyword occurrence at the leftmost position, in the text's own case; None means no keyword occurs |
| Listings.InOrFromAt | scraper.js:111 | a capture after "in"/"from" is non-empty and made of place characters |
| Listings.FindInOrFrom | scraper.js:111 | the capture found is the one at the leftmost position where "in"/"from" and a place run match; None means no position matches |
| Listings.BackstageLocation | scraper.js:93-115 | a location element's keyword wins, else its whole trimmed text; without one, "Nationwide" for a card mentioning Nationwide or Worldwide, else the "Roles paying" place, else the leftmost "in"/"from" capture, else "" |
| Listings.BackstagePosted | scraper.js:117-128 | the element's trimmed text wins; otherwise the trimmed capture after the first "posted" label, made of date characters, or "" when there is none |
| Listings.BackstageListing | scraper.js:83-130 | a summary exists exactly for a card with a heading, an acceptable title and a "/casting/" link; it keeps that title and link, and its location and posted date are the card's |
| Listings.NonEmptyTrimmed | mandyscraper.js:93 | every line kept is non-empty and is the trimmed form of a line of the card |
| Listings.FirstPlaceLine | mandyscraper.js:94-99 | the result is the first "Place, Place" line, or "" exactly when no line is one |
| Listings.FindPlaceLine | mandyscraper.js:94-99 | the loop with `break` returns the first place line |
| Listings.MandyLocation | mandyscraper.js:92-103 | a place line wins; otherwise the trimmed capture after the first "Locations:"/"Location:" label, or ""; only place characters |
| Listings.MandyPosted | mandyscraper.js:106-108 | the posted date is the trimmed capture after the first "Posted:" label, made of date characters, and "" without one |
| Listings.MandyPostedRead | mandyscraper.js:107-108 | "Posted: d" reads back as d |
| Listings.MandyLocationRead | mandyscraper.js:100-103 | a one-line card "Location: d" is located in d |
| Listings.MandyListing | mandyscraper.js:83-110 | a summary exists exactly for a card with a project link and an acceptable title; it carries the card's location and posted date |
| Listings.LondonIsPlaceLine | mandyscraper.js:95 | "London, UK" is a place line |
| Listings.MandyPlaceLineWins | mandyscraper.js:93-99 | a card whose second line is " London, UK " is located in "London, UK" |
| Listings.Summaries | starnow.js:166-191 | every summary comes from a card, and there are no more summaries than cards |
| Listings.SummarizeCards | starnow.js:167-191 | the card loop with `continue` gives the summaries of the cards it does not skip, in order |
| Listings.ListingsOfPage | starnow.js:163-194 | a page's listings are its summaries de-duplicated by link |
| Listings.PageListingsSound | starnow.js:192-193 | every listing has a link and summarises a card, no two share a link, and their order is the cards' order |
| Listings.PageListingsComplete | starnow.js:192-193 | every summary with a link is represented by a listing with that link |
| Listings.PageListingsFirstWins | starnow.js:192-193 | each listing is the first summary with its link |
| ShootDetails.NormOfNonEmpty | starnow.js:252-254 | no more candidates are pushed than there are texts |
| ShootDetails.NormOfNonEmptyFrom | starnow.js:252-254 | each pushed candidate is the normalised form of a non-empty text |
| ShootDetails.NormOfNonEmptyComplete | starnow.js:252-254 | every non-empty text is pushed, normalised |
| ShootDetails.NormOfNonEmptyAppend | starnow.js:252-254 | the pushes of two runs of texts are the pushes of the first followed by those of the second: the texts' order is kept |
| ShootDetails.Candidates | starnow.js:248-289 | the primary candidates are used when there are any; otherwise a non-empty `span.Linkify` text gives the one candidate, its normalised text; otherwise the details block gives its normalised text exactly when that text is not blank, and nothing else is added |
| ShootDetails.PushNormOfNonEmpty | starnow.js:252-263 | a gathering loop appends the normalised non-empty texts |
| ShootDetails.CollectHeadingParagraphs | starnow.js:266-277 | the heading loop collects the paragraph after each "dates ... locations" heading |
| ShootDetails.GatherCandidates | starnow.js:248-289 | the gathering steps, with both fallbacks, give the candidates |
| ShootDetails.NormOfNonEmptyNormalized | starnow.js:252-254 | every pushed candidate is normalised text |
| ShootDetails.CandidatesOneLine | starnow.js:248-289 | every candidate is normalised and has no line break |
| ShootDetails.CandidatesNormalized | starnow.js:248-289 | every candidate is normalised text |
| ShootDetails.Find | starnow.js:309 | `find` gives the first element that passes the test; None means none passes |
| ShootDetails.FirstNonEmpty | starnow.js:321-324 | the result is "" exactly when every candidate is ""; otherwise it is one of them |
| ShootDetails.Utf16Length | starnow.js:302 | `length` counts UTF-16 units: between one and two per character, and one per character in the Basic Multilingual Plane |
| ShootDetails.ShortOnes | starnow.js:302 | the filtered candidates are exactly those whose length in UTF-16 units is under 200 |
| ShootDetails.Choose | starnow.js:321-324 | the corrected choice: never ""; it is "N/A" or a candidate, and a candidate whenever a non-empty one exists |
| ShootDetails.EmptyIsNoDate | starnow.js:298-305 | neither date test passes on "" |
| ShootDetails.FindNonEmpty | starnow.js:309-318 | a find whose test fails on "" gives a non-empty candidate |
| ShootDetails.ChooseKeywordDateFirst | starnow.js:308-309 | a short candidate with a date keyword that looks like a date wins: the first such one |
| ShootDetails.ChooseFallsBackToFirstText | starnow.js:320-324 | the corrected choice: with no date-like candidate and no keyword candidate, the first non-empty short candidate is chosen |
| ShootDetails.ChooseKeywordSecond | starnow.js:311-312 | with no short keyword-and-date-like candidate, the first short candidate with a date keyword is chosen (as written and corrected alike) |
| ShootDetails.ChooseShortDateLikeThird | starnow.js:314-315 | with no short keyword candidate, the first short date-like candidate is chosen |
| ShootDetails.ChooseLongDateLikeFourth | starnow.js:317-318 | with no short candidate that has a keyword or looks like a date, the first date-like candidate of the whole list, a long one, is chosen |
| ShootDetails.ChooseAsWritten | starnow.js:308-324 | the choice as written: never ""; it is "N/A" or a candidate, a candidate when the first one is non-empty, and "N/A" when all are empty |
| ShootDetails.ChooseAsWrittenFallsBackToFirst | starnow.js:320-324 | as written, with no date-like candidate and no keyword candidate, a short non-empty first candidate is chosen |
| ShootDetails.TbcIsNoDate | starnow.js:298-305 | "TBC" has no date keyword and does not look like a date |
| ShootDetails.EmptyFirstCandidateHidesText | starnow.js:321-324 | as written, an empty first candidate gives "N/A" even though "TBC" follows it; the corrected choice gives "TBC" |
| ShootDetails.ReplaceDashes | starnow.js:337 | each of the four dashes becomes '-', everything else is kept, and no dash is left |
| ShootDetails.StopAt | starnow.js:345 | the stop is the first '.' or ',' from the position on, or the end of the text |
| ShootDetails.LazyToStop | starnow.js:345 | a lazy capture is non-empty and on one line |
| ShootDetails.LazyToStopGivesBackSpace | starnow.js:345 | on " ,x\ny" the capture is " ": when the first character after the spaces is "." or "," and the line breaks before any later stop, the engine backtracks into the spaces and the lazy group captures the last one rather than fail |
| ShootDetails.WordThenLazy | starnow.js:345-346 | the capture is the one at the leftmost position where `WORD\s*(.+?)(?:[.,]|$)` matches, and is non-empty; None means no position matches |
| ShootDetails.FindBetweenNowAnd | starnow.js:341 | the capture is the one at the leftmost position where `between\s+now\s+and\s*(.+?)(?:[.,]|$)` matches, and is non-empty; None means no position matches |
| ShootDetails.Extracted | starnow.js:354 | the extraction is trimmed |
| ShootDetails.Matches | starnow.js:350-351 | one result per pattern, in the order the patterns are tried |
| ShootDetails.FirstExtraction | starnow.js:350-363 | the shoot date is never "" |
| ShootDetails.ShootDate | starnow.js:334-363 | the shoot date is "N/A" or a trimmed, non-empty extraction |
| ShootDetails.FirstExtractionIsAMatch | starnow.js:350-363 | a shoot date other than "N/A" is the extraction of the first pattern that matches and leaves something |
| ShootDetails.ReadShootDate | starnow.js:350-363 | the pattern loop with `break` gives the shoot date |
| ShootDetails.UntilRead | starnow.js:345 | "until d." gives shoot date d when the earlier patterns give nothing |
| ShootDetails.UntilTextUnchanged | starnow.js:337 | dash replacement leaves "until d." as it is |
| ShootDetails.AsciiUnchanged | starnow.js:337 | ASCII text has no dash to replace |
| ShootDetails.NoDashUnchanged | starnow.js:337 | text without dashes is unchanged |
| ShootDetails.ShootDateFromUntil | starnow.js:340-363 | when only "until" matches, the shoot date is its capture |
| ShootDetails.UntilPick | starnow.js:345 | the "until" pattern on "until d." captures d |
| ShootDetails.UntilLazy | starnow.js:345 | the lazy capture after "until" stops at the first '.' |
| ShootDetails.PlacePhraseAt | starnow.js:367 | a place phrase starts with a letter, has at least two characters, and is made of phrase characters |
| ShootDetails.FindPlacePhrase | starnow.js:367 | the phrase found is the one at the leftmost position where a place phrase matches; None means none does; it starts with a letter and has at least two characters |
| ShootDetails.PlacePhraseAtStart | starnow.js:367 | a place phrase at the start of the text is the one found |
| ShootDetails.ShootLocation | starnow.js:366-369 | a real page location (the default set at line 243) is kept; otherwise the normalised leftmost place phrase of the chosen text, else "N/A"; never "" |
| ShootDetails.ShootLocationFromPhrase | starnow.js:366-369 | with no page location, a chosen text "in P" gives shoot location P |
| Roles.JoinWith | starnow.js:403 | the joined text starts with the first part |
| Roles.JoinWithHasParts | starnow.js:403 | every part occurs in the joined text |
| Roles.CleanLines | starnow.js:400-402 | the kept lines are the non-empty cleaned lines: none empty, none lost, none invented |
| Roles.PayText | starnow.js:397-404 | the pay is never ""; it is "N/A" when every line is blank, and contains every non-blank line |
| Roles.StarNowGender | starnow.js:395 | the gender is "N/A" or one of the listed words |
| Roles.StarNowRole | starnow.js:379-412 | a role exists exactly when the block has a mailto or casting link, and the mailto link is preferred; name and pay fall back to "Unnamed Role" and "N/A" |
| Roles.StarNowRoleName | starnow.js:380 | the name is "Unnamed Role" without text, and the normalised text otherwise; either way it is already normal (`norm` leaves it unchanged) |
| Roles.StarNowPay | starnow.js:397-404 | the pay is never "", and is "N/A" without a pay element |
| Roles.UnnamedRoleIsNormal | starnow.js:380 | normalising "Unnamed Role" gives "Unnamed Role" |
| Roles.StarNowRolesLinked | starnow.js:379-413 | every role has an apply link, and there are no roles exactly when no block has a link |
| Roles.SummariesEmpty | starnow.js:473 | no record is built exactly when every role block is skipped |
| Roles.SummariesOfTotal | scraper.js:207-230 | when no block is skipped, there is one role per block, in block order |
| Roles.PayFromRole | starnow.js:453-463 | a role page's pay is never "" |
| Roles.EnrichedRoleFillsPay | starnow.js:444-471 | only a missing pay changes; it changes only to the pay of a page that loaded, and such a pay is always taken |
| Roles.EnrichedRoles | starnow.js:444-471 | enrichment keeps the number of roles |
| Roles.EnrichedRolesKeepLinks | starnow.js:444-471 | names and apply links stay; roles that have a pay are unchanged |
| Roles.EnrichPay | starnow.js:444-471 | the loop updates the role array in place to the enriched roles |
| Roles.BoundedWordAt | scraper.js:218-220 | a match is one of the gender words |
| Roles.FindBoundedWord | scraper.js:218-220 | the word found is the gender word at the leftmost position between word boundaries; None means none occurs |
| Roles.BoardGender | scraper.js:218-227 | the gender is "N/A" or one of the listed words, in the text's own case |
| Roles.BackstagePay | scraper.js:221-228 | the pay is "N/A" or made of pay characters |
| Roles.MandyPay | mandyscraper.js:195-202 | the pay is never "" and is one line |
| Roles.BoardRole | scraper.js:208-229 | the name is trimmed, else "Unnamed Role"; the apply link falls back to the page address; name and gender are never "" |
| Roles.BoardPay | scraper.js:221-228 | the pay is never "" |
| Roles.CollectBoardRoles | scraper.js:201-230 | the role loop gives one role per block, in order |
| Roles.BoardRolesStep | scraper.js:207-230 | one iteration appends the role of the next block |
| Roles.ReadBoardRole | scraper.js:208-229 | the loop body gives the role of the block |
| Roles.BoardRolesComplete | scraper.js:201-230 | there is one role per block; each has a name, a gender and a pay, and an apply link when the page has an address |
| Records.StarNowDetailOf | starnow.js:219-431 | location is "N/A" without its element, and "" only for a blank one; deadline is "ASAP" without its element; the dates text is the choice as written, "N/A" or a candidate, and "N/A" when all are empty; shoot date and location are never ""; roles are the linked ones |
| Records.EvaluateStarNowPage | starnow.js:219-431 | the script step by step, with the choice as written, gives the detail |
| Records.StarNowRecordOf | starnow.js:473-512 | no roles means no record; otherwise the URL is the link, project and location fall back, dates are normalised, and each role is paired with its ages |
| Records.StarNowPartsAgree | starnow.js:483-502 | the city/state/country columns are the split of the location columns |
| Records.StarNowRecordKeepsDetail | starnow.js:483-499 | the record keeps the page's shoot fields, and takes the listing's location only for a blank location element |
| Records.StarNowResult | starnow.js:200-524 | a page that fails to open gives no record; a record has the listing's URL and roles |
| Records.ProcessStarNowListing | starnow.js:200-524 | the listing's loop body gives that result |
| Records.ProcessStarNowPage | starnow.js:219-512 | an opened page gives the record of its enriched detail |
| Records.LookUpPays | starnow.js:444-471 | the pay loop gives the detail with missing pays looked up |
| Records.ScrapeStarNowPage | starnow.js:199-525 | the listing loop gives the page's records, in listing order |
| Records.StarNowPageRecordsDistinct | starnow.js:192-200 | a page has no more records than listings; each record has roles and comes from a listing; no two share a source URL |
| Records.GetText | scraper.js:177 | `getText` is "" without the element, and otherwise trimmed |
| Records.SeekingLocation | scraper.js:187-190 | the "Seeking talent" place is one line, and trimmed |
| Records.DatesLocation | scraper.js:191-198 | the dates place is made of place characters and digits, and trimmed |
| Records.DetailLocation | scraper.js:183-199 | the "Seeking talent" place wins, else the dates place |
| Records.BoardDetailOf | scraper.js:176-233 | the project is the header, else the h1; the location is the page's; there is one role per block |
| Records.EvaluateBoardPage | scraper.js:176-233 | the script step by step gives the detail |
| Records.PageLocation | scraper.js:183-199 | the page script's two regular-expression steps give exactly the detail location: the "Seeking talent" place, else the dates place |
| Records.MergedLocation | scraper.js:235-254 | Backstage prefers the listing's location and Mandy the page's; the result is one of the two, and "" only when both are |
| Records.BoardRecordOf | scraper.js:249-256 | the URL is the link; project and posted fall back to the listing; the location is the merged one |
| Records.LocationPreference | mandyscraper.js:209-210 | when both have a location, Backstage sends the listing's and Mandy the page's |
| Records.BoardResult | scraper.js:151-261 | there is a record exactly when the page opens, and it has the listing's URL |
| Records.ProcessBoardListing | scraper.js:151-261 | the loop body gives that result |
| Records.ScrapeBoardPage | scraper.js:140-262 | the listing loop gives the page's records |
| Records.BoardPageRecordsFollowListings | scraper.js:140-262 | one record per listing whose page opens, in order, each with that listing's link |
| Records.BoardPageRecordsDistinct | scraper.js:133-134 | listings with distinct links give records with distinct URLs |
| Pagination.BatchesNonEmpty | scraper.js:39-43 | no empty batch is ever sent, and at most one per page |
| Pagination.BatchesFromPages | scraper.js:264-265 | every batch sent is the whole result of one successful page |
| Pagination.BatchesStep | scraper.js:39-43 | a successful page with records sends them; any other page sends nothing |
| Pagination.FirstInterrupt | scraper.js:51-68 | the first interrupted page: none before it is interrupted, and it is interrupted unless past the last page |
| Pagination.FirstInterruptUnique | scraper.js:68 | only one page has those properties |
| Pagination.Scraper.constructor | scraper.js:33-36 | the scraper starts on page 1, not stopped, having sent nothing |
| Pagination.Scraper.SendWebhook | scraper.js:39-48 | an empty batch is skipped and any other one is sent; nothing else changes |
| Pagination.Scraper.FinishPage | scraper.js:264-267 | the page's records are sent and the page advances |
| Pagination.Scraper.FailPage | scraper.js:268-271 | a failed page sends nothing and the page advances |
| Pagination.Scraper.Abort | scraper.js:51-65 | the handler sets both flags and cleans up once; a second call changes nothing |
| Pagination.Scraper.Run | scraper.js:68-272 | the loop stops at the first interrupted page, or after the last page; it has sent the batches of every page before that |
| Pagination.RunBoard | scraper.js:33-272 | a run sends the batches of pages 1 up to the first interrupt |
| Pagination.RunBackstage | scraper.js:34-272 | Backstage sends the batches of pages 1 up to the first interrupt, out of its 458 pages |
| Pagination.RunMandy | mandyscraper.js:38-69 | Mandy sends the batches of pages 1 up to the first interrupt, out of its 103 pages |
| Pagination.RunStarNow | starnow.js:154-531 | StarNow sends the batches of all its pages, in order |
| Pagination.RunStarNowPages | starnow.js:138-154 | StarNow sends the batches of all its 103 pages, in order |
| Pagination.UninterruptedRunsEveryPage | scraper.js:68 | without an interrupt, every page is scraped |
| FacebookPosts.LabelledLine | facebook.js:34-41 | a field is non-empty, starts with a non-space and is one line; with no label anywhere it is null |
| FacebookPosts.LabelledLineRead | facebook.js:34 | after any text with no label in it, "LABEL:", spaces (line breaks included) and a one-line value read back as that value |
| FacebookPosts.UsageAsWritten | facebook.js:40 | a usage read as written is non-empty |
| FacebookPosts.Usage | facebook.js:40 | the corrected usage is non-empty and one line |
| FacebookPosts.UsageAgreesBeforeLineBreak | facebook.js:40 | whenever the expression as written reads a usage, the corrected reading agrees |
| FacebookPosts.UsageAsWrittenNeedsLineBreak | facebook.js:40 | as written, a post with no line break has no usage |
| FacebookPosts.UsageOnLastLine | facebook.js:28-40 | a usage on the last line is lost as written and read whole by the corrected reading |
| FacebookPosts.Gender | facebook.js:42 | the gender is a non-empty run of letters |
| FacebookPosts.LastTldDot | facebook.js:43 | the dot found is the last one in range that two letters follow |
| FacebookPosts.EmailAt | facebook.js:43 | a match is the text at its position; it has an '@', starts with a local-part character and ends with two letters |
| FacebookPosts.FindEmail | facebook.js:43 | the address found is the match at the leftmost position; it occurs in the post and has an '@'; None means no position matches |
| FacebookPosts.FindEmailAtStart | facebook.js:43 | an address at the start of the post is the one found |
| FacebookPosts.LastTldDotIs | facebook.js:43 | the last suitable dot is the one found |
| FacebookPosts.EmailByPositions | facebook.js:43 | an address laid out at known positions is the match |
| FacebookPosts.EmailRead | facebook.js:43 | local@host.tld, followed by a non-domain character, is read whole; dots in the host are allowed |
| FacebookPosts.ParsePost | facebook.js:32-50 | the raw text is kept; project, role, shoot date, call time, location and rate are their labelled lines; the age is the line after "AGES:" or "AGE:"; the usage is read as written; the gender is the "LOOKING FOR A" word; the e-mail is the first one; it is a casting post exactly when it has a project or "CASTING" |
| FacebookPosts.ParsePosts | facebook.js:26-32 | at most 25 posts, in page order; each is the parse of the trimmed text of its node |
| FacebookPosts.ParsePostRoleRead | facebook.js:35 | "ROLE:", spaces and a one-line value, after text without the label, give the post's role |
| FacebookPosts.ParsePostAgesRead | facebook.js:41 | "AGES:" and a one-line value give the post's age |
| FacebookPosts.ParsePostAgeRead | facebook.js:41 | "AGE:" fails the "ages:" spelling, and the age is still read after it |
| FacebookPosts.NotCastingWithoutMarkers | facebook.js:49 | a post with no "project:" label and no "CASTING" is not a casting post |

## Left out

- Browser work is not modelled: launching, contexts, `goto` with timeouts, sleeps, random user agents, the `webdriver` override, clicks that expand roles or "See more", and the Facebook scroll loop. These only decide what the page shows, which is an input here.
- Selecting elements by text is an input: the first element that mentions "Seeking talent" or the dates and locations (scraper.js:184-186, scraper.js:192-194).
- The role age expressions (starnow.js:389-393, scraper.js:215-217) are not scanned. A role block carries the text of their first match.
- Backstage's "Roles paying ... Posted:" capture (scraper.js:108) is not scanned. A card carries it.
- Four of the seven shoot-date patterns are a parameter (`PatternPicks`), for each pattern and text: "from X to Y", the day-month range, the day-month date, and a date after Records/Shoot/Filming/Casting. The "between now and", "until" and "by" patterns are scanned.
- The `try`/`catch` around a pattern's pick (starnow.js:353-361) is left out. No pick can throw on a match.
- `new Date(text)` is a parameter that gives a civil date, or nothing for an invalid date. Formatting as `toISOString().split("T")[0]` becomes a day number. Time zones are not modelled: everything is taken in UTC. The parsed time of day is dropped: starnow.js:50 compares instants, the model compares day numbers. The two agree for a date without a time, which parses at midnight; a text with a time later today (say "2025-10-15 23:00", read at 10:00 that day) is moved back a year by the source but kept by the model.
- `Number` of a digit run is an unbounded natural number. JavaScript loses precision above 2^53.
- The webhook POST is left out: a sent batch is appended to `sent`. A failed POST is logged and ignored in the source, so it changes nothing that is modelled.
- The interrupt is taken to land between pages. In the source the handler closes the page, the context and the browser before `process.exit` (scraper.js:51-65) while the loop goes on, so a page interrupted midway may still send the part of its batch gathered before the browser closed; the model does not capture that partial batch.
- Console logging, the `_debug_candidates` field and the duplicate `deadline_norm` field (starnow.js:426-430) are left out.
- NormalizePostedDate: a huge N in "N days ago" or "N hours ago" (starnow.js:27-31) gives an invalid date whose `toISOString` throws a RangeError; the source catches it at starnow.js:520 and drops the listing, while the model dates it N days back on its unbounded day numbers.
- ToLower: folds only the ASCII letters A-Z, while `toLowerCase` folds every Unicode letter. The labels and keywords compared against are ASCII, but a non-ASCII capital in a captured value keeps its case in the model.
- A JavaScript `null` string is written "" wherever a later `||` treats both alike.
- Nothing in ecosystem.config.js, fb_session.js, listener.js or scheduler.js is part of this model.
- Listings.Summaries: its contract says only where summaries come from and how many there are. The exact list is given by the loop `Listings.SummarizeCards` and by `Records.SummariesOfKept`.
- ShootDetails.NormOfNonEmpty: its own contract gives only the bound. That every non-empty text is pushed is stated by `ShootDetails.NormOfNonEmptyComplete`, that the order is kept by `ShootDetails.NormOfNonEmptyAppend`, and that nothing else is pushed by `ShootDetails.NormOfNonEmptyFrom`.
- Roles.EnrichedRoles: its own contract gives only the length. What happens to each role is stated by `Roles.EnrichedRoleFillsPay` and `Roles.EnrichedRolesKeepLinks`.

## Findings

| source | as written | input that shows it | evidently intended | confidence | as-written member | corrected member |
|---|---|---|---|---|---|---|
| starnow.js:38 | `tue(s)?` and `thu(r(s)?)?` must be followed by a word boundary, so the full names "tuesday" and "thursday" never match, and `normalizePostedDate` returns the raw text | a posted date of "Tuesday" | the last Tuesday before today | not executed | Dates.PostedTuesdayKeptVerbatim | Dates.PostedFullDayNameCorrected |
| starnow.js:321-324 | `filtered[0] \|\| uniq[0] \|\| "N/A"` uses only the first candidate, so an empty first candidate hides every later one | candidates `["", "TBC"]` | "TBC", the first non-empty candidate | not executed | ShootDetails.EmptyFirstCandidateHidesText | ShootDetails.Choose |
| facebook.js:40 | the usage must end with a line break, but posts are trimmed first, so a usage on the last line is never read | "PROJECT: X\nUSAGE: Online 1 year" | "Online 1 year" | not executed | FacebookPosts.UsageOnLastLine | FacebookPosts.Usage |

The scrapers are modelled as written: `NormalizePostedDate`, `NormalizeDeadlineDate`, `StarNowDetailOf` and `ParsePost` use the spellings, the choice and the usage expression of the source. Each corrected member stands beside its as-written twin, with the intended property proved about it; `DatePhrases.TuesdayNotRecognisedAsWritten`, `DatePhrases.ThursdayNotRecognisedAsWritten` and `DatePhrases.DayNamesRecognised` show the same discrepancy at the level of the weekday scan.
