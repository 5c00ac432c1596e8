/**
 * The listing cards of a results page, as each scraper summarises them
 * before it opens their detail pages: a title, a link without its query
 * string, a location and a posted date. A card the scraper skips gives
 * `None`; the summaries of a page are then de-duplicated by link.
 *
 * The DOM is not modelled: a card is the texts the selectors would find in
 * it, with `None` for an element that is absent.
 */
module Listings {
  import opened Wrappers
  import opened Strings
  import opened Scanners
  import opened Dedup

  /** A card's summary; "" stands for a location or posted date that is `null`. */
  datatype Listing = Listing(title: string, link: string, location: string, posted: string)

  /** A link element: its `href` ("" when it has none) and its `innerText`. */
  datatype Anchor = Anchor(href: string, text: string)

  /** A link without its query string (`href.split("?")[0]`). */
  function LinkOf(a: Anchor): (link: string)
    ensures '?' !in link && link <= a.href
    ensures link == a.href || (|link| < |a.href| && a.href[|link|] == '?')
  {
    BeforeFirst(a.href, '?')
  }

  /** A title is refused when it is empty or a test of one of the `badWords` expressions succeeds on it. */
  predicate AcceptableTitle(title: string, badWords: seq<string>) {
    title != "" && !ContainsAnyIgnoringCase(title, badWords)
  }

  // ---------- StarNow ----------

  /**
   * A StarNow card: its casting link, the text of its location element and
   * the direct text nodes of the first "Posted:" span.
   */
  datatype StarNowCard = StarNowCard(anchor: Option<Anchor>, locationText: Option<string>, postedNodes: Option<seq<string>>)

  predicate NotLineTerminator(c: char) { !IsLineTerminator(c) }

  /** The text nodes of the span, trimmed and joined with spaces. */
  function JoinTrimmed(nodes: seq<string>): string {
    Join(seq(|nodes|, k requires 0 <= k < |nodes| => Trim(nodes[k])), ' ')
  }

  /** `text.match(/Posted:\s*(.+)/i)`, its capture trimmed, and "N/A" when that is empty or there is no match. */
  function PostedOnSpan(text: string): (posted: string)
    ensures posted != ""
    ensures posted == Trim(posted)
    ensures forall k :: 0 <= k < |posted| ==> !IsLineTerminator(posted[k])
    ensures !ContainsIgnoringCase(text, "posted:") ==> posted == "N/A"
  {
    match LabelSepRun(text, ["posted:"], IsSpace, NotLineTerminator, 0)
    case None => "N/A"
    case Some(c) =>
      PostedOnSpanCapture(text, c);
      OrElse(Trim(c), "N/A")
  }

  /** The posted date made of a capture of `/Posted:\s*(.+)/i`. */
  lemma PostedOnSpanCapture(text: string, c: string)
    requires LabelSepRun(text, ["posted:"], IsSpace, NotLineTerminator, 0) == Some(c)
    ensures var posted := OrElse(Trim(c), "N/A");
      posted != "" && posted == Trim(posted) && ContainsIgnoringCase(text, "posted:") &&
      forall k :: 0 <= k < |posted| ==> !IsLineTerminator(posted[k])
  {
    PostedCapture(text, NotLineTerminator, c);
    if Trim(c) == "" {
      NotApplicableTrimmed();
    }
  }

  /** What a "Posted:" capture is made of, once trimmed, and that a capture needs the label. */
  lemma PostedCapture(text: string, inClass: char -> bool, c: string)
    requires LabelSepRun(text, ["posted:"], IsSpace, inClass, 0) == Some(c)
    ensures Trim(c) == Trim(Trim(c))
    ensures forall k :: 0 <= k < |Trim(c)| ==> inClass(Trim(c)[k])
    ensures ContainsIgnoringCase(text, "posted:")
  {
    LabelSepRunFound(text, ["posted:"], IsSpace, inClass, 0);
    PostedLabelsLower();
    TrimIdempotent(c);
    TrimKeepsClass(c, inClass);
  }

  lemma PostedLabelsLower()
    ensures ToLower("posted:") == "posted:" && ToLower("posted") == "posted"
  {
    ToLowerOfLower("posted:");
    ToLowerOfLower("posted");
  }

  /**
   * The posted date of a StarNow card: never "", trimmed and on one line;
   * "N/A" when it has no "Posted:" span or the span's text has no label
   * (StarNowPostedRead reads a date back).
   */
  function StarNowPosted(postedNodes: Option<seq<string>>): (posted: string)
    ensures posted != "" && posted == Trim(posted)
    ensures forall k :: 0 <= k < |posted| ==> !IsLineTerminator(posted[k])
    ensures postedNodes.None? ==> posted == "N/A"
    ensures postedNodes.Some? && !ContainsIgnoringCase(JoinTrimmed(postedNodes.value), "posted:") ==> posted == "N/A"
  {
    match postedNodes
    case None => NotApplicableTrimmed(); "N/A"
    case Some(nodes) => PostedOnSpan(JoinTrimmed(nodes))
  }

  /** A card without a casting link is skipped; every other card gives a summary, whatever its title. */
  function StarNowListing(card: StarNowCard): (r: Option<Listing>)
    ensures r.Some? <==> card.anchor.Some?
    ensures r.Some? ==> r.value.link == LinkOf(card.anchor.value) && r.value.title == Trim(card.anchor.value.text)
    ensures r.Some? ==> r.value.posted != "" && r.value.location == Trim(r.value.location)
    ensures r.Some? ==> r.value.location == (match card.locationText case Some(t) => Trim(t) case None => "N/A")
    ensures r.Some? ==> r.value.posted == StarNowPosted(card.postedNodes)
  {
    match card.anchor
    case None => None
    case Some(a) =>
      var location := match card.locationText case Some(t) => Trim(t) case None => "N/A";
      CardLocationTrimmed(card.locationText);
      Some(Listing(Trim(a.text), LinkOf(a), location, StarNowPosted(card.postedNodes)))
  }

  lemma CardLocationTrimmed(locationText: Option<string>)
    ensures var location := match locationText case Some(t) => Trim(t) case None => "N/A";
      location == Trim(location)
  {
    match locationText
    case Some(t) => TrimIdempotent(t);
    case None => NotApplicableTrimmed();
  }

  /** A span whose text reads "Posted: <d>", for a trimmed one-line `d`, gives the posted date `d`. */
  lemma PostedOnSpanRead(d: string)
    requires d != [] && d == Trim(d)
    requires forall k :: 0 <= k < |d| ==> !IsLineTerminator(d[k])
    ensures PostedOnSpan("Posted: " + d) == d
  {
    var s := "Posted: " + d;
    PostedLabelAtStart(d);
    assert !IsSpace(s[8]) by { assert s[8] == d[0]; }
    RunEndAt(s, 7, 8, IsSpace);
    assert LastInClass(s, 7, 8, NotLineTerminator) == Some(8);
    RunEndAt(s, 8, |s|, NotLineTerminator);
    assert s[8..|s|] == d;
    LabelSepRunHere(s, ["posted:"], IsSpace, NotLineTerminator, 0, 7, d);
  }

  /** A span whose text nodes are "Posted:" and a trimmed one-line `d` gives the posted date `d`. */
  lemma StarNowPostedRead(d: string)
    requires d != [] && d == Trim(d)
    requires forall k :: 0 <= k < |d| ==> !IsLineTerminator(d[k])
    ensures StarNowPosted(Some(["Posted:", d])) == d
  {
    TrimOfTrimmed("Posted:");
    var nodes := ["Posted:", d];
    var parts := seq(|nodes|, k requires 0 <= k < |nodes| => Trim(nodes[k]));
    assert parts == nodes;
    assert Join(nodes, ' ') == "Posted:" + [' '] + Join([d], ' ');
    assert JoinTrimmed(nodes) == "Posted:" + [' '] + d;
    assert "Posted:" + [' '] + d == "Posted: " + d;
    PostedOnSpanRead(d);
  }

  lemma PostedLabelAtStart(d: string)
    ensures LabelAt(ToLower("Posted: " + d), 0, ["posted:"]) == Some(7)
  {
    var lower := ToLower("Posted: " + d);
    assert lower[..7] == "posted:";
  }

  // ---------- Backstage ----------

  const BackstageBadWords: seq<string> := ["post a job", "find jobs", "join now", "save job", "become a backstage member"]

  /**
   * A Backstage card: its heading link, the text of its location element,
   * the texts of all its elements joined with " | ", the capture of the
   * "Roles paying ... Posted:" expression on that text, and the text of its
   * posted-date element.
   */
  datatype BackstageCard = BackstageCard(
    heading: Option<Anchor>,
    locationText: Option<string>,
    cardText: string,
    rolesPayingPlace: Option<string>,
    postedText: Option<string>)

  const LocationKeywords: seq<string> := ["nationwide", "worldwide", "remote"]

  /** The leftmost position at or after `from` where one of `labels` occurs in `lower`, and the end of that label. */
  function FindLabel(lower: string, labels: seq<string>, from: nat): (r: Option<(nat, nat)>)
    ensures r.Some? ==> from <= r.value.0 && LabelAt(lower, r.value.0, labels) == Some(r.value.1)
    ensures r.Some? ==> forall i :: from <= i < r.value.0 ==> LabelAt(lower, i, labels).None?
    ensures r.None? ==> forall i :: from <= i <= |lower| ==> LabelAt(lower, i, labels).None?
    decreases |lower| + 1 - from
  {
    if from > |lower| then None
    else match LabelAt(lower, from, labels)
      case Some(j) => Some((from, j))
      case None => FindLabel(lower, labels, from + 1)
  }

  /**
   * `text.match(/W1|W2|.../i)[0]` for words with no one a prefix of another:
   * the leftmost occurrence of one of the lower-case `words`, in the text's own case.
   */
  function FindWord(text: string, words: seq<string>): (r: Option<string>)
    ensures r.Some? ==> ToLower(r.value) in words
    ensures r.Some? ==> exists i :: FirstWordAt(text, words, i, r.value)
    ensures r.None? ==> forall i :: 0 <= i <= |text| ==> LabelAt(ToLower(text), i, words).None?
  {
    var lower := ToLower(text);
    match FindLabel(lower, words, 0)
    case None => None
    case Some((i, j)) =>
      FirstWordFound(text, words, i, j);
      Some(text[i..j])
  }

  /** `w` is the text at `i`, one of the `words` occurs there in any case, and none occurs before `i`. */
  predicate FirstWordAt(text: string, words: seq<string>, i: nat, w: string) {
    && i + |w| <= |text| && w == text[i..i + |w|]
    && LabelAt(ToLower(text), i, words) == Some(i + |w|)
    && forall m :: 0 <= m < i ==> LabelAt(ToLower(text), m, words).None?
  }

  /** Where the leftmost of the lower-case `words` occurs in the lower-cased text, the text there lower-cases to that word. */
  lemma FirstWordFound(text: string, words: seq<string>, i: nat, j: nat)
    requires FindLabel(ToLower(text), words, 0) == Some((i, j))
    ensures i <= j <= |text| && ToLower(text[i..j]) in words
    ensures FirstWordAt(text, words, i, text[i..j])
  {
    var lower := ToLower(text);
    var k :| 0 <= k < |words| && OccursAt(lower, words[k], i) && j == i + |words[k]|;
    ToLowerSlice(text, i, j);
    assert ToLower(text[i..j]) == words[k];
    assert i + |text[i..j]| == j;
  }

  /** `locText.match(/Nationwide|Worldwide|Remote/i)` */
  function FindKeyword(text: string): Option<string> {
    FindWord(text, LocationKeywords)
  }

  /** A place: `[A-Za-z ,]`. */
  predicate PlaceChar(c: char) { IsLetter(c) || c == ' ' || c == ',' }

  /**
   * `/(?:in|from)\s+(C+)/i` at `i`: the word, one space at least, and
   * then, as in `LabelSepRun`, the run of class C after the spaces that
   * `\s+` keeps.
   */
  function InOrFromAt(s: string, i: nat, inClass: char -> bool): (r: Option<string>)
    ensures r.Some? ==> r.value != [] && forall k :: 0 <= k < |r.value| ==> inClass(r.value[k])
  {
    match LabelAt(ToLower(s), i, ["in", "from"])
    case None => None
    case Some(j) =>
      if j < |s| && IsSpace(s[j]) then SepThenRun(s, j + 1, IsSpace, inClass) else None
  }

  /** The leftmost match of `/(?:in|from)\s+(C+)/i` at or after `from`. */
  function FindInOrFrom(s: string, inClass: char -> bool, from: nat): (r: Option<string>)
    ensures r.Some? ==> r.value != [] && forall k :: 0 <= k < |r.value| ==> inClass(r.value[k])
    ensures r.Some? ==>
      exists i :: from <= i <= |s| && InOrFromAt(s, i, inClass) == r &&
        forall j :: from <= j < i ==> InOrFromAt(s, j, inClass).None?
    ensures r.None? ==> forall i :: from <= i <= |s| ==> InOrFromAt(s, i, inClass).None?
  {
    var scan := (i: nat) => InOrFromAt(s, i, inClass);
    assert forall i: nat :: scan(i) == InOrFromAt(s, i, inClass);
    Leftmost(scan, from, |s|)
  }

  /**
   * The location of a Backstage card: with a location element, the first
   * Nationwide/Worldwide/Remote in it or else its whole trimmed text;
   * without one, "Nationwide" for a card that mentions Nationwide or
   * Worldwide, else the "Roles paying" place, else the place after "in" or
   * "from", else `null`.
   */
  function BackstageLocation(card: BackstageCard): (location: string)
    ensures card.locationText.None? && ContainsAnyIgnoringCase(card.cardText, ["nationwide", "worldwide"]) ==>
      location == "Nationwide"
    ensures card.locationText.Some? && FindKeyword(Trim(card.locationText.value)).None? ==>
      location == Trim(card.locationText.value)
    ensures card.locationText.Some? && FindKeyword(Trim(card.locationText.value)).Some? ==>
      location == FindKeyword(Trim(card.locationText.value)).value && ToLower(location) in LocationKeywords
    ensures card.locationText.None? && !ContainsAnyIgnoringCase(card.cardText, ["nationwide", "worldwide"]) ==>
      if card.rolesPayingPlace.Some? && card.rolesPayingPlace.value != "" then
        location == Trim(card.rolesPayingPlace.value)
      else if FindInOrFrom(card.cardText, PlaceChar, 0).Some? then
        location == Trim(FindInOrFrom(card.cardText, PlaceChar, 0).value)
      else location == ""
  {
    match card.locationText
    case Some(t) =>
      var locText := Trim(t);
      (match FindKeyword(locText) case Some(w) => w case None => locText)
    case None =>
      if ContainsAnyIgnoringCase(card.cardText, ["nationwide", "worldwide"]) then "Nationwide"
      else if card.rolesPayingPlace.Some? && card.rolesPayingPlace.value != "" then Trim(card.rolesPayingPlace.value)
      else match FindInOrFrom(card.cardText, PlaceChar, 0)
        case Some(m) => Trim(m)
        case None => ""
  }

  /** `[A-Za-z0-9 ,\-]`, the characters of a Backstage posted date. */
  predicate BackstagePostedChar(c: char) { IsLetter(c) || IsDigit(c) || c == ' ' || c == ',' || c == '-' }

  predicate ColonOrSpace(c: char) { c == ':' || IsSpace(c) }

  /** The posted-date element's trimmed text, else the trimmed capture of `/Posted[:\s]*([A-Za-z0-9 ,\-]+)/i`, else `null`. */
  function BackstagePosted(card: BackstageCard): (posted: string)
    ensures card.postedText.Some? ==> posted == Trim(card.postedText.value)
    ensures card.postedText.None? ==> forall k :: 0 <= k < |posted| ==> BackstagePostedChar(posted[k])
    ensures card.postedText.None? && !ContainsIgnoringCase(card.cardText, "posted") ==> posted == ""
    ensures card.postedText.None? ==>
      var m := LabelSepRun(card.cardText, ["posted"], ColonOrSpace, BackstagePostedChar, 0);
      posted == (if m.Some? then Trim(m.value) else "")
  {
    match card.postedText
    case Some(t) => Trim(t)
    case None =>
      match LabelSepRun(card.cardText, ["posted"], ColonOrSpace, BackstagePostedChar, 0)
      case None => ""
      case Some(c) =>
        LabelSepRunFound(card.cardText, ["posted"], ColonOrSpace, BackstagePostedChar, 0);
        PostedLabelsLower();
        TrimKeepsClass(c, BackstagePostedChar);
        Trim(c)
  }

  /** A capture of `LabelSepRun` means that one of its labels occurs in the lower-cased text. */
  lemma LabelSepRunFound(s: string, labels: seq<string>, isSep: char -> bool, inClass: char -> bool, from: nat)
    requires LabelSepRun(s, labels, isSep, inClass, from).Some?
    ensures exists k, i :: 0 <= k < |labels| && from <= i && OccursAt(ToLower(s), labels[k], i)
    ensures |labels| == 1 ==> Contains(ToLower(s), labels[0])
  {
    var i :| from <= i <= |s| && LabelSepRunAt(s, labels, isSep, inClass, i) == LabelSepRun(s, labels, isSep, inClass, from);
    assert LabelAt(ToLower(s), i, labels).Some?;
  }

  /**
   * A Backstage card is skipped without a heading link, with an empty or
   * refused title, or when its link does not lead to a casting page.
   */
  function BackstageListing(card: BackstageCard): (r: Option<Listing>)
    ensures r.Some? ==> card.heading.Some? && r.value.title == Trim(card.heading.value.text)
    ensures r.Some? ==> AcceptableTitle(r.value.title, BackstageBadWords)
    ensures r.Some? ==> r.value.link == LinkOf(card.heading.value) && Contains(r.value.link, "/casting/")
    ensures r.Some? ==> r.value.location == BackstageLocation(card) && r.value.posted == BackstagePosted(card)
    ensures (card.heading.Some? && AcceptableTitle(Trim(card.heading.value.text), BackstageBadWords)
             && Contains(LinkOf(card.heading.value), "/casting/")) ==> r.Some?
  {
    match card.heading
    case None => None
    case Some(a) =>
      var title := Trim(a.text);
      if !AcceptableTitle(title, BackstageBadWords) then None
      else
        var link := LinkOf(a);
        if !Contains(link, "/casting/") then None
        else Some(Listing(title, link, BackstageLocation(card), BackstagePosted(card)))
  }

  // ---------- Mandy ----------

  const MandyBadWords: seq<string> := ["post a job", "find jobs", "join now", "save job"]

  /** A Mandy card: its project link and its `innerText`. */
  datatype MandyCard = MandyCard(heading: Option<Anchor>, text: string)

  /** `/^[A-Za-z ,]+, [A-Za-z ,]+$/i`: place characters only, with ", " between two non-empty parts. */
  predicate PlaceLine(l: string) {
    (forall k :: 0 <= k < |l| ==> PlaceChar(l[k]))
    && exists k :: 1 <= k && k + 2 < |l| && l[k] == ',' && l[k + 1] == ' '
  }

  /** `split("\n").map(l => l.trim()).filter(l => l)` */
  function NonEmptyTrimmed(parts: seq<string>): (lines: seq<string>)
    ensures forall k :: 0 <= k < |lines| ==> lines[k] != "" && exists p :: p in parts && lines[k] == Trim(p)
  {
    if parts == [] then []
    else
      var rest := NonEmptyTrimmed(parts[1..]);
      assert forall k :: 0 <= k < |rest| ==> exists p :: p in parts && rest[k] == Trim(p) by {
        forall k | 0 <= k < |rest| ensures exists p :: p in parts && rest[k] == Trim(p) {
          var p :| p in parts[1..] && rest[k] == Trim(p);
          assert p in parts;
        }
      }
      if Trim(parts[0]) == "" then rest else [Trim(parts[0])] + rest
  }

  function CardLines(text: string): seq<string> {
    NonEmptyTrimmed(Split(text, '\n'))
  }

  /** The first place line, or "" when no line is one. */
  function FirstPlaceLine(lines: seq<string>): (l: string)
    ensures l == "" <==> forall k :: 0 <= k < |lines| ==> !PlaceLine(lines[k])
    ensures l != "" ==>
      exists k :: 0 <= k < |lines| && lines[k] == l && PlaceLine(l) && forall j :: 0 <= j < k ==> !PlaceLine(lines[j])
  {
    if lines == [] then ""
    else if PlaceLine(lines[0]) then lines[0]
    else
      var l := FirstPlaceLine(lines[1..]);
      assert l != "" ==>
        exists k :: 0 <= k < |lines| && lines[k] == l && PlaceLine(l) && forall j :: 0 <= j < k ==> !PlaceLine(lines[j]) by {
        if l != "" {
          var k :| 0 <= k < |lines[1..]| && lines[1..][k] == l && PlaceLine(l)
            && forall j :: 0 <= j < k ==> !PlaceLine(lines[1..][j]);
          assert lines[k + 1] == l;
        }
      }
      l
  }

  /** The scan of the card's lines that stops at the first place line. */
  method FindPlaceLine(lines: seq<string>) returns (location: string)
    ensures location == FirstPlaceLine(lines)
  {
    location := "";
    var i := 0;
    while i < |lines|
      invariant 0 <= i <= |lines|
      invariant location == "" && FirstPlaceLine(lines) == FirstPlaceLine(lines[i..])
    {
      assert lines[i..][1..] == lines[i + 1..];
      if PlaceLine(lines[i]) {
        location := lines[i];
        return;
      }
      i := i + 1;
    }
  }

  /** The Mandy location: the first place line, else the trimmed capture of `/Locations?:\s*([A-Za-z ,]+)/i`, else "". */
  function MandyLocation(text: string): (location: string)
    ensures FirstPlaceLine(CardLines(text)) != "" ==> location == FirstPlaceLine(CardLines(text))
    ensures FirstPlaceLine(CardLines(text)) == "" ==>
      var m := LabelSepRun(text, ["locations:", "location:"], IsSpace, PlaceChar, 0);
      location == (if m.Some? then Trim(m.value) else "")
    ensures forall k :: 0 <= k < |location| ==> PlaceChar(location[k])
  {
    var l := FirstPlaceLine(CardLines(text));
    if l != "" then l
    else
      match LabelSepRun(text, ["locations:", "location:"], IsSpace, PlaceChar, 0)
      case None => ""
      case Some(c) =>
        TrimKeepsClass(c, PlaceChar);
        Trim(c)
  }

  /** `[A-Za-z0-9 ,]`, the characters of a Mandy posted date. */
  predicate MandyPostedChar(c: char) { IsLetter(c) || IsDigit(c) || c == ' ' || c == ',' }

  function MandyPosted(text: string): (posted: string)
    ensures forall k :: 0 <= k < |posted| ==> MandyPostedChar(posted[k])
    ensures !ContainsIgnoringCase(text, "posted:") ==> posted == ""
    ensures var m := LabelSepRun(text, ["posted:"], IsSpace, MandyPostedChar, 0);
      posted == (if m.Some? then Trim(m.value) else "")
  {
    match LabelSepRun(text, ["posted:"], IsSpace, MandyPostedChar, 0)
    case None => ""
    case Some(c) =>
      PostedCapture(text, MandyPostedChar, c);
      Trim(c)
  }

  /** A Mandy card is skipped without a project link or with an empty or refused title. */
  function MandyListing(card: MandyCard): (r: Option<Listing>)
    ensures r.Some? <==> card.heading.Some? && AcceptableTitle(Trim(card.heading.value.text), MandyBadWords)
    ensures r.Some? ==> r.value.title == Trim(card.heading.value.text) && r.value.link == LinkOf(card.heading.value)
    ensures r.Some? ==> r.value.location == MandyLocation(card.text) && r.value.posted == MandyPosted(card.text)
  {
    match card.heading
    case None => None
    case Some(a) =>
      var title := Trim(a.text);
      if !AcceptableTitle(title, MandyBadWords) then None
      else Some(Listing(title, LinkOf(a), MandyLocation(card.text), MandyPosted(card.text)))
  }

  /** A card whose text reads "Posted: <d>", for a trimmed date `d` of the allowed characters, is posted `d`. */
  lemma MandyPostedRead(d: string)
    requires d != [] && Trimmed(d)
    requires forall k :: 0 <= k < |d| ==> MandyPostedChar(d[k])
    ensures MandyPosted("Posted: " + d) == d
  {
    var s := "Posted: " + d;
    PostedLabelAtStart(d);
    assert !IsSpace(s[8]) by { assert s[8] == d[0]; }
    RunEndAt(s, 7, 8, IsSpace);
    assert LastInClass(s, 7, 8, MandyPostedChar) == Some(8);
    forall k | 8 <= k < |s| ensures MandyPostedChar(s[k]) {
      assert s[k] == d[k - 8];
    }
    RunEndAt(s, 8, |s|, MandyPostedChar);
    assert s[8..|s|] == d;
    LabelSepRunHere(s, ["posted:"], IsSpace, MandyPostedChar, 0, 7, d);
    TrimOfTrimmed(d);
  }

  /**
   * A one-line card reading "Location: <d>", for a trimmed place `d`, has
   * no place line (the line holds a ':'), so its location is `d`.
   */
  lemma MandyLocationRead(d: string)
    requires d != [] && Trimmed(d)
    requires forall k :: 0 <= k < |d| ==> PlaceChar(d[k])
    ensures MandyLocation("Location: " + d) == d
  {
    MandyLocationLine(d);
    LocationCapture(d);
    TrimOfTrimmed(d);
  }

  /** The capture of `/Locations?:\s*([A-Za-z ,]+)/i` in "Location: <d>" is `d`. */
  lemma LocationCapture(d: string)
    requires d != [] && !IsSpace(d[0])
    requires forall k :: 0 <= k < |d| ==> PlaceChar(d[k])
    ensures LabelSepRun("Location: " + d, ["locations:", "location:"], IsSpace, PlaceChar, 0) == Some(d)
  {
    var s := "Location: " + d;
    LocationLabelAtStart(d);
    assert !IsSpace(s[10]) by { assert s[10] == d[0]; }
    RunEndAt(s, 9, 10, IsSpace);
    assert LastInClass(s, 9, 10, PlaceChar) == Some(10);
    forall k | 10 <= k < |s| ensures PlaceChar(s[k]) {
      assert s[k] == d[k - 10];
    }
    RunEndAt(s, 10, |s|, PlaceChar);
    assert s[10..|s|] == d;
    LabelSepRunHere(s, ["locations:", "location:"], IsSpace, PlaceChar, 0, 9, d);
  }

  /** "Location: <d>" is one card line, and not a place line. */
  lemma MandyLocationLine(d: string)
    requires d != [] && Trimmed(d)
    requires forall k :: 0 <= k < |d| ==> PlaceChar(d[k])
    ensures FirstPlaceLine(CardLines("Location: " + d)) == ""
  {
    LocationLineShape(d);
    OneLineNoPlace("Location: " + d, 8);
  }

  /** A one-line card with a character that cannot be in a place has no place line. */
  lemma OneLineNoPlace(s: string, i: nat)
    requires '\n' !in s && s != [] && Trimmed(s)
    requires i < |s| && !PlaceChar(s[i])
    ensures FirstPlaceLine(CardLines(s)) == ""
  {
    OneLineCard(s);
    assert !PlaceLine(s);
    OnlyLineNotPlace(s);
  }

  /** "Location: <d>" has no line break, is trimmed, and holds a ':'. */
  lemma LocationLineShape(d: string)
    requires d != [] && Trimmed(d)
    requires forall k :: 0 <= k < |d| ==> PlaceChar(d[k])
    ensures var s := "Location: " + d;
      '\n' !in s && s != [] && Trimmed(s) && 8 < |s| && !PlaceChar(s[8])
  {
    var s := "Location: " + d;
    forall k | 0 <= k < |s| ensures s[k] != '\n' {
      if k >= 10 { assert s[k] == d[k - 10]; }
    }
    assert s[|s| - 1] == d[|d| - 1];
  }

  lemma OnlyLineNotPlace(l: string)
    requires !PlaceLine(l)
    ensures FirstPlaceLine([l]) == ""
  {
    assert [l][1..] == [];
  }

  /** A trimmed text without line breaks is a card of that one line. */
  lemma OneLineCard(s: string)
    requires s != [] && Trimmed(s) && '\n' !in s
    ensures CardLines(s) == [s]
  {
    assert FirstIndexOfChar(s, '\n') == |s|;
    assert Split(s, '\n') == [s];
    TrimOfTrimmed(s);
    NonEmptyTrimmedCons(s, []);
    assert [s] + [] == [s];
  }

  /** "location:" is the first label found at the start of "Location: <d>". */
  lemma LocationLabelAtStart(d: string)
    ensures LabelAt(ToLower("Location: " + d), 0, ["locations:", "location:"]) == Some(9)
  {
    var lower := ToLower("Location: " + d);
    assert lower[..9] == "location:";
    assert lower[8] == ':';
    assert !OccursAt(lower, "locations:", 0);
  }

  lemma NonEmptyTrimmedCons(p: string, rest: seq<string>)
    ensures NonEmptyTrimmed([p] + rest) == (if Trim(p) == "" then [] else [Trim(p)]) + NonEmptyTrimmed(rest)
  {
    assert ([p] + rest)[1..] == rest;
  }

  lemma LondonIsPlaceLine()
    ensures PlaceLine("London, UK")
  {
    var place := "London, UK";
    assert place[6] == ',' && place[7] == ' ';
  }

  lemma TrimLondon()
    ensures Trim(" London, UK ") == "London, UK" && '\n' !in " London, UK "
  {
    var line := " London, UK ";
    assert IsSpace(line[0]) && !IsSpace(line[1]) && IsSpace(line[11]) && !IsSpace(line[10]);
    TrimOneSpaceEachEnd(line);
    assert line[1..11] == "London, UK";
  }

  /** The lines of a card whose second line is " London, UK ". */
  lemma LondonCardLines(first: string, text: string)
    requires '\n' !in first
    ensures CardLines(first + "\n London, UK \n" + text) ==
      (if Trim(first) == "" then [] else [Trim(first)]) + (["London, UK"] + CardLines(text))
  {
    var line := " London, UK ";
    assert first + "\n London, UK \n" + text == first + ['\n'] + (line + ['\n'] + text);
    TrimLondon();
    CardLinesOfTwo(first, line, text);
  }

  /** The card lines of two lines and more text: the first two, trimmed and kept when not empty, then the rest. */
  lemma CardLinesOfTwo(first: string, line: string, text: string)
    requires '\n' !in first && '\n' !in line
    ensures CardLines(first + ['\n'] + (line + ['\n'] + text)) ==
      (if Trim(first) == "" then [] else [Trim(first)]) + ((if Trim(line) == "" then [] else [Trim(line)]) + CardLines(text))
  {
    var tail := line + ['\n'] + text;
    SplitAfterPiece(first, '\n', tail);
    SplitAfterPiece(line, '\n', text);
    NonEmptyTrimmedCons(line, Split(text, '\n'));
    NonEmptyTrimmedCons(first, [line] + Split(text, '\n'));
  }

  /** A card whose second line is " London, UK " and whose first line has no comma is located in London, UK. */
  lemma MandyPlaceLineWins(first: string, text: string)
    requires ',' !in first && '\n' !in first
    ensures MandyLocation(first + "\n London, UK \n" + text) == "London, UK"
  {
    LondonCardLines(first, text);
    LondonIsPlaceLine();
    NoCommaNoPlaceLine(first);
    PlaceLineSecond(Trim(first), "London, UK", CardLines(text));
  }

  lemma NoCommaNoPlaceLine(first: string)
    requires ',' !in first
    ensures !PlaceLine(Trim(first))
  {
    var t := Trim(first);
    forall k | 0 <= k < |t| ensures t[k] != ',' {
      assert t[k] == first[LeadingSpace(first) + k];
    }
  }

  /** A place line right after the first line, when that one is not a place line or is empty, is the first place line. */
  lemma PlaceLineSecond(t: string, place: string, more: seq<string>)
    requires !PlaceLine(t) && PlaceLine(place)
    ensures FirstPlaceLine((if t == "" then [] else [t]) + ([place] + more)) == place
  {
    var rest := [place] + more;
    assert FirstPlaceLine(rest) == place;
    if t != "" {
      assert ([t] + rest)[1..] == rest;
    }
  }

  // ---------- one page of cards ----------

  /** `xs.map(f)`. */
  function MapSeq<T, U>(xs: seq<T>, f: T -> U): (ys: seq<U>)
    ensures |ys| == |xs|
    ensures forall k :: 0 <= k < |xs| ==> ys[k] == f(xs[k])
  {
    seq(|xs|, k requires 0 <= k < |xs| => f(xs[k]))
  }

  /** Mapping one more element appends its image. */
  lemma MapSeqStep<T, U>(xs: seq<T>, f: T -> U, i: nat)
    requires i < |xs|
    ensures MapSeq(xs[..i + 1], f) == MapSeq(xs[..i], f) + [f(xs[i])]
  {
    var longer, shorter := MapSeq(xs[..i + 1], f), MapSeq(xs[..i], f);
    forall k | 0 <= k < i ensures longer[k] == shorter[k] {
      assert xs[..i + 1][k] == xs[..i][k];
    }
    assert longer == shorter + [longer[i]];
  }

  /** The summaries of the cards (or role blocks) that are not skipped, in their order. */
  function Summaries<C, R>(cards: seq<C>, summarize: C -> Option<R>): (out: seq<R>)
    ensures forall l :: l in out ==> exists c :: c in cards && summarize(c) == Some(l)
    ensures |out| <= |cards|
  {
    if cards == [] then []
    else
      var rest := Summaries(cards[..|cards| - 1], summarize);
      var last := cards[|cards| - 1];
      assert forall l :: l in rest ==> exists c :: c in cards && summarize(c) == Some(l) by {
        forall l | l in rest ensures exists c :: c in cards && summarize(c) == Some(l) {
          var c :| c in cards[..|cards| - 1] && summarize(c) == Some(l);
          assert c in cards;
        }
      }
      match summarize(last)
      case Some(l) => rest + [l]
      case None => rest
  }

  /** A `for ... of` loop with `continue`: skipped cards are passed over, the others pushed. */
  method SummarizeCards<C, R>(cards: seq<C>, summarize: C -> Option<R>) returns (out: seq<R>)
    ensures out == Summaries(cards, summarize)
  {
    out := [];
    for i := 0 to |cards|
      invariant out == Summaries(cards[..i], summarize)
    {
      assert cards[..i + 1][..i] == cards[..i];
      match summarize(cards[i])
      case None =>
      case Some(l) =>
        out := out + [l];
    }
    assert cards[..|cards|] == cards;
  }

  function LinkKey(l: Listing): string { l.link }

  predicate NonEmptyLink(link: string) { link != "" }

  /** The listings of a page: the card summaries, without empty links, each link once, first card first. */
  function PageListings<C>(cards: seq<C>, summarize: C -> Option<Listing>): seq<Listing> {
    KeepFirsts(Summaries(cards, summarize), LinkKey, NonEmptyLink)
  }

  method ListingsOfPage<C>(cards: seq<C>, summarize: C -> Option<Listing>) returns (listings: seq<Listing>)
    ensures listings == PageListings(cards, summarize)
  {
    var out := SummarizeCards(cards, summarize);
    listings := KeepFirstByKey(out, LinkKey, NonEmptyLink);
  }

  /**
   * Every listing of a page summarises one of its cards, has a link, and no
   * two listings share a link; every linked summary is represented by the
   * first card that gives its link.
   */
  lemma PageListingsSound<C>(cards: seq<C>, summarize: C -> Option<Listing>)
    ensures var listings := PageListings(cards, summarize);
      (forall l :: l in listings ==> l.link != "" && exists c :: c in cards && summarize(c) == Some(l))
      && KeysDistinct(listings, LinkKey)
      && SubsequenceOf(listings, Summaries(cards, summarize))
  {
    var out := Summaries(cards, summarize);
    KeepFirstsIsSubsequence(out, LinkKey, NonEmptyLink);
    KeepFirstsKeysUnique(out, LinkKey, NonEmptyLink);
    assert PageListings(cards, summarize) == KeepFirsts(out, LinkKey, NonEmptyLink);
    forall l | l in PageListings(cards, summarize)
      ensures l.link != "" && exists c :: c in cards && summarize(c) == Some(l)
    {
      assert l in out && NonEmptyLink(LinkKey(l));
    }
  }

  lemma PageListingsComplete<C>(cards: seq<C>, summarize: C -> Option<Listing>, l: Listing)
    requires l in Summaries(cards, summarize) && l.link != ""
    ensures exists m :: m in PageListings(cards, summarize) && m.link == l.link
  {
    var out := Summaries(cards, summarize);
    KeepFirstsKeys(out, LinkKey, NonEmptyLink, l.link);
    assert l.link in KeysOf(out, LinkKey);
    var m :| m in PageListings(cards, summarize) && LinkKey(m) == l.link;
  }

  /** `m` is a summary that no earlier summary shares its link with. */
  ghost predicate FirstWithLink(out: seq<Listing>, m: Listing) {
    exists i :: 0 <= i < |out| && out[i] == m && forall j :: 0 <= j < i ==> out[j].link != m.link
  }

  lemma PageListingsFirstWins<C>(cards: seq<C>, summarize: C -> Option<Listing>)
    ensures forall m :: m in PageListings(cards, summarize) ==> FirstWithLink(Summaries(cards, summarize), m)
  {
    var out := Summaries(cards, summarize);
    KeepFirstsFirstWins(out, LinkKey, NonEmptyLink);
    forall m | m in PageListings(cards, summarize) ensures FirstWithLink(out, m) {
      var i :| 0 <= i < |out| && out[i] == m && forall j :: 0 <= j < i ==> LinkKey(out[j]) != LinkKey(m);
      assert forall j :: 0 <= j < i ==> out[j].link != m.link;
    }
  }
}
