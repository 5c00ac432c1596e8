/**
 * What each scraper makes of one listing and of one page of listings: the
 * StarNow detail-page script, the pay lookup and the record it sends
 * (starnow.js), and the Backstage and Mandy detail-page script, the merge
 * with the listing and the record they send (scraper.js, mandyscraper.js).
 * The browser is a parameter: `open` maps a link to the parts of the page
 * the scripts read, or to None when visiting or reading the page fails.
 */
module Records {
  import opened Wrappers
  import opened Strings
  import opened Scanners
  import opened Dedup
  import opened Listings
  import opened ShootDetails
  import opened Roles
  import opened Calendar
  import opened Dates
  import opened Splitters

  // ---------- StarNow: the detail-page script ----------

  /** The parts of a StarNow detail page the script reads. */
  datatype StarNowPage = StarNowPage(
    header: Option<string>,
    locationText: Option<string>,
    deadlineText: Option<string>,
    details: DetailsPage,
    roleBlocks: seq<StarNowRoleBlock>)

  /** What the script returns. */
  datatype StarNowDetail = StarNowDetail(
    projectName: string,
    location: string,
    deadline: string,
    datesAndLocations: string,
    shootDate: string,
    shootLocation: string,
    roles: seq<Role>)

  /** The candidates, each once, in the order first met. */
  function FirstOccurrences(cands: seq<string>): seq<string> {
    KeepFirsts(cands, s => s, s => true)
  }

  /**
   * The script: the normalised header, location ("N/A" without the
   * element) and deadline ("ASAP" without it); the chosen dates text, the
   * shoot date read from it and the shoot location; the linked roles.
   */
  function StarNowDetailOf(page: StarNowPage, picks: PatternPicks): (d: StarNowDetail)
    ensures d.location == "" <==> page.locationText.Some? && AllSpace(page.locationText.value)
    ensures page.locationText.None? ==> d.location == "N/A"
    ensures page.deadlineText.None? ==> d.deadline == "ASAP"
    ensures d.datesAndLocations == "N/A" || d.datesAndLocations in Candidates(page.details)
    ensures (forall c :: c in Candidates(page.details) ==> c == "") ==> d.datesAndLocations == "N/A"
    ensures d.shootDate != "" && d.shootLocation != ""
    ensures d.location != "" && d.location != "N/A" ==> d.shootLocation == d.location
    ensures d.roles == StarNowRoles(page.roleBlocks)
  {
    var cands := Candidates(page.details);
    var uniq := FirstOccurrences(cands);
    KeepFirstsIsSubsequence(cands, s => s, s => true);
    assert forall c :: c in cands ==> c in uniq by {
      forall c | c in cands ensures c in uniq {
        KeepFirstsKeys(cands, s => s, s => true, c);
        assert c in KeysOf(cands, s => s);
      }
    }
    var chosen := ChooseAsWritten(uniq);
    var location := match page.locationText case None => "N/A" case Some(t) => Norm(t);
    var deadline := match page.deadlineText case None => "ASAP" case Some(t) => Norm(t);
    StarNowDetail(Norm(page.header.GetOr("")), location, deadline, chosen,
      ShootDate(chosen, picks), ShootLocation(location, chosen), StarNowRoles(page.roleBlocks))
  }

  /** The script step by step: the candidate loops, the de-duplicating loop, the pattern loop and the role loop. */
  method EvaluateStarNowPage(page: StarNowPage, picks: PatternPicks) returns (d: StarNowDetail)
    ensures d == StarNowDetailOf(page, picks)
  {
    var projectName := Norm(page.header.GetOr(""));
    var location := "N/A";
    if page.locationText.Some? {
      location := Norm(page.locationText.value);
    }
    var deadline := "ASAP";
    if page.deadlineText.Some? {
      deadline := Norm(page.deadlineText.value);
    }
    var candidates := GatherCandidates(page.details);
    var uniq := UniqueInOrder(candidates);
    var chosen := ChooseAsWritten(uniq);
    var shootDate := ReadShootDate(chosen, picks);
    var shootLocation := ShootLocation(location, chosen);
    var roles := SummarizeCards(page.roleBlocks, StarNowRole);
    d := StarNowDetail(projectName, location, deadline, chosen, shootDate, shootLocation, roles);
    StarNowDetailFields(page, picks, location, deadline);
  }

  /** The fields of the script's result, one by one. */
  lemma StarNowDetailFields(page: StarNowPage, picks: PatternPicks, location: string, deadline: string)
    requires location == if page.locationText.Some? then Norm(page.locationText.value) else "N/A"
    requires deadline == if page.deadlineText.Some? then Norm(page.deadlineText.value) else "ASAP"
    ensures var chosen := ChooseAsWritten(FirstOccurrences(Candidates(page.details)));
      StarNowDetailOf(page, picks) == StarNowDetail(Norm(page.header.GetOr("")), location, deadline, chosen,
        ShootDate(chosen, picks), ShootLocation(location, chosen), StarNowRoles(page.roleBlocks))
  {
  }

  // ---------- StarNow: the record ----------

  /** A role as sent: the role and the ages read from its age text. */
  datatype AgedRole = AgedRole(role: Role, ages: AgeRange)

  datatype StarNowRecord = StarNowRecord(
    project: string,
    sourceUrl: string,
    posted: NormalizedDate,
    deadline: NormalizedDate,
    location: string,
    locationParts: Location,
    shootDate: string,
    shootLocation: string,
    shootParts: Location,
    roles: seq<AgedRole>)

  function AgedRoles(roles: seq<Role>): seq<AgedRole> {
    seq(|roles|, k requires 0 <= k < |roles| => AgedRole(roles[k], SplitAge(roles[k].ageRange)))
  }

  /**
   * The record of a listing and its detail, or None for a detail without
   * roles (the listing is skipped). Project and location fall back to the
   * listing's; dates are normalised against the clock.
   */
  function StarNowRecordOf(item: Listing, detail: StarNowDetail, now: Clock, parse: DateParser): (r: Option<StarNowRecord>)
    requires now.Valid()
    ensures r.None? <==> detail.roles == []
    ensures r.Some? ==> r.value.sourceUrl == item.link
    ensures r.Some? ==> r.value.location != "" && r.value.shootDate != "" && r.value.shootLocation != ""
    ensures r.Some? && detail.projectName != "" ==> r.value.project == detail.projectName
    ensures r.Some? && detail.projectName == "" ==> r.value.project == item.title
    ensures r.Some? ==> r.value.posted == NormalizePostedDate(now, item.posted, parse)
    ensures r.Some? ==> r.value.deadline == NormalizeDeadlineDate(now, detail.deadline, parse)
    ensures r.Some? ==> |r.value.roles| == |detail.roles|
    ensures r.Some? ==> forall k :: 0 <= k < |detail.roles| ==>
      r.value.roles[k].role == detail.roles[k] && r.value.roles[k].ages == SplitAge(detail.roles[k].ageRange)
  {
    if detail.roles == [] then None
    else
      var loc := OrElse(detail.location, item.location);
      Some(StarNowRecord(
        OrElse(detail.projectName, item.title),
        item.link,
        NormalizePostedDate(now, item.posted, parse),
        NormalizeDeadlineDate(now, detail.deadline, parse),
        OrElse(loc, "N/A"),
        SplitLocation(loc),
        OrElse(detail.shootDate, "N/A"),
        OrElse(detail.shootLocation, "N/A"),
        SplitLocation(detail.shootLocation),
        AgedRoles(detail.roles)))
  }

  /** The city, state and country columns always agree with the location columns beside them. */
  lemma StarNowPartsAgree(item: Listing, detail: StarNowDetail, now: Clock, parse: DateParser)
    requires now.Valid() && detail.roles != []
    ensures var r := StarNowRecordOf(item, detail, now, parse).value;
      r.locationParts == SplitLocation(r.location) && r.shootParts == SplitLocation(r.shootLocation)
  {
    var loc := OrElse(detail.location, item.location);
    if loc == "" {
      assert SplitLocation("N/A") == NoLocation;
    }
  }

  /**
   * On a detail read by the script, the record keeps its shoot date and
   * shoot location as they are, and takes the listing's location only when
   * the page's location element holds nothing but whitespace.
   */
  lemma StarNowRecordKeepsDetail(item: Listing, page: StarNowPage, picks: PatternPicks, now: Clock, parse: DateParser)
    requires now.Valid() && StarNowDetailOf(page, picks).roles != []
    ensures var d := StarNowDetailOf(page, picks);
      var r := StarNowRecordOf(item, d, now, parse).value;
      r.shootDate == d.shootDate && r.shootLocation == d.shootLocation &&
      (r.location != d.location ==> page.locationText.Some? && AllSpace(page.locationText.value))
  {
  }

  /** The clock at a valid hour, as the scraper reads it once per listing. */
  type ValidClock = c: Clock | c.Valid() witness Clock(0, 0)

  /** The detail with its missing pays looked up on the roles' own pages. */
  function EnrichedDetail(d: StarNowDetail, visit: string -> RolePage): StarNowDetail {
    d.(roles := EnrichedRoles(d.roles, visit))
  }

  /** One listing: visit its page, read it, look up the missing pays, build the record. */
  function StarNowResult(item: Listing, open: string -> Option<StarNowPage>, visit: string -> RolePage,
                         now: ValidClock, parse: DateParser, picks: PatternPicks): (r: Option<StarNowRecord>)
    ensures open(item.link).None? ==> r.None?
    ensures r.Some? ==> r.value.sourceUrl == item.link && r.value.roles != []
  {
    match open(item.link)
    case None => None
    case Some(page) => StarNowRecordOf(item, EnrichedDetail(StarNowDetailOf(page, picks), visit), now, parse)
  }

  /** The body of the listing loop: the roles are enriched in place in an array. */
  method ProcessStarNowListing(item: Listing, open: string -> Option<StarNowPage>, visit: string -> RolePage,
                               now: ValidClock, parse: DateParser, picks: PatternPicks) returns (record: Option<StarNowRecord>)
    ensures record == StarNowResult(item, open, visit, now, parse, picks)
  {
    match open(item.link)
    case None =>
      record := None;
    case Some(page) =>
      record := ProcessStarNowPage(item, page, visit, now, parse, picks);
  }

  /** A detail page that opened: the script, the pay lookups, then the skip test or the record. */
  method ProcessStarNowPage(item: Listing, page: StarNowPage, visit: string -> RolePage,
                            now: ValidClock, parse: DateParser, picks: PatternPicks) returns (record: Option<StarNowRecord>)
    ensures record == StarNowRecordOf(item, EnrichedDetail(StarNowDetailOf(page, picks), visit), now, parse)
  {
    var detail := EvaluateStarNowPage(page, picks);
    detail := LookUpPays(detail, visit);
    if |detail.roles| == 0 {
      record := None;
    } else {
      record := StarNowRecordOf(item, detail, now, parse);
    }
  }

  /** The pay loop: the roles are copied into an array and enriched in place. */
  method LookUpPays(detail: StarNowDetail, visit: string -> RolePage) returns (enriched: StarNowDetail)
    ensures enriched == EnrichedDetail(detail, visit)
  {
    var roles := new Role[|detail.roles|](k requires 0 <= k < |detail.roles| => detail.roles[k]);
    assert roles[..] == detail.roles;
    EnrichPay(roles, visit);
    enriched := detail.(roles := roles[..]);
  }

  /** The records of one page of listings, in listing order. */
  function StarNowPageRecords(listings: seq<Listing>, open: string -> Option<StarNowPage>, visit: string -> RolePage,
                              now: ValidClock, parse: DateParser, picks: PatternPicks): seq<StarNowRecord> {
    Summaries(listings, item => StarNowResult(item, open, visit, now, parse, picks))
  }

  /** The listing loop of one page. */
  method ScrapeStarNowPage(listings: seq<Listing>, open: string -> Option<StarNowPage>, visit: string -> RolePage,
                           now: ValidClock, parse: DateParser, picks: PatternPicks) returns (pageResults: seq<StarNowRecord>)
    ensures pageResults == StarNowPageRecords(listings, open, visit, now, parse, picks)
  {
    pageResults := [];
    for i := 0 to |listings|
      invariant pageResults == Summaries(listings[..i], item => StarNowResult(item, open, visit, now, parse, picks))
    {
      assert listings[..i + 1][..i] == listings[..i];
      var record := ProcessStarNowListing(listings[i], open, visit, now, parse, picks);
      if record.Some? {
        pageResults := pageResults + [record.value];
      }
    }
    assert listings[..|listings|] == listings;
  }

  /**
   * When each result carries the key of the element it came from, distinct
   * keys among the elements give distinct keys among the results.
   */
  lemma {:induction false} SummariesKeepKeysDistinct<C, R>(xs: seq<C>, f: C -> Option<R>, keyOf: C -> string, keyR: R -> string)
    requires forall x :: f(x).Some? ==> keyR(f(x).value) == keyOf(x)
    requires KeysDistinct(xs, keyOf)
    ensures KeysDistinct(Summaries(xs, f), keyR)
  {
    if xs != [] {
      var n := |xs| - 1;
      var init := xs[..n];
      assert KeysDistinct(init, keyOf) by {
        forall i, j | 0 <= i < j < |init| ensures keyOf(init[i]) != keyOf(init[j]) {
          assert init[i] == xs[i] && init[j] == xs[j];
        }
      }
      SummariesKeepKeysDistinct(init, f, keyOf, keyR);
      var rest := Summaries(init, f);
      match f(xs[n])
      case None =>
      case Some(r) =>
        var out := Summaries(xs, f);
        assert out == rest + [r];
        forall k | 0 <= k < |rest| ensures keyR(rest[k]) != keyR(r) {
          assert rest[k] in rest;
          var c :| c in init && f(c) == Some(rest[k]);
          var i :| 0 <= i < n && init[i] == c;
          assert keyOf(xs[i]) != keyOf(xs[n]);
        }
        forall i, j | 0 <= i < j < |out| ensures keyR(out[i]) != keyR(out[j]) {
          if j < |rest| {
            assert out[i] == rest[i] && out[j] == rest[j];
          } else {
            assert out[i] == rest[i] && out[j] == r;
          }
        }
    }
  }

  function StarNowRecordUrl(r: StarNowRecord): string { r.sourceUrl }

  /**
   * Each record of a page comes from one of its listings and has roles; the
   * page's listings have distinct links, so no two records share a source
   * address.
   */
  lemma StarNowPageRecordsDistinct(listings: seq<Listing>, open: string -> Option<StarNowPage>,
                                   visit: string -> RolePage, now: ValidClock, parse: DateParser, picks: PatternPicks)
    requires KeysDistinct(listings, LinkKey)
    ensures var rs := StarNowPageRecords(listings, open, visit, now, parse, picks);
      |rs| <= |listings| &&
      (forall r :: r in rs ==> r.roles != [] && exists item :: item in listings && item.link == r.sourceUrl) &&
      KeysDistinct(rs, StarNowRecordUrl)
  {
    var f := item => StarNowResult(item, open, visit, now, parse, picks);
    SummariesKeepKeysDistinct(listings, f, LinkKey, StarNowRecordUrl);
  }

  // ---------- Backstage and Mandy: the detail-page script ----------

  /**
   * The parts of a Backstage or Mandy detail page the script reads: its
   * address, the header, any `h1`, the posted and deadline elements, the
   * first element whose text mentions "Seeking talent", the first whose
   * text mentions the dates and locations, and the role blocks.
   */
  datatype BoardPage = BoardPage(
    url: string,
    headerText: Option<string>,
    h1Text: Option<string>,
    postedText: Option<string>,
    deadlineText: Option<string>,
    seekText: Option<string>,
    datesText: Option<string>,
    roleBlocks: seq<BoardRoleBlock>)

  datatype BoardDetail = BoardDetail(projectName: string, posted: string, deadline: string, location: string, roles: seq<Role>)

  /** `getText`: the element's trimmed text, or "" without one. */
  function GetText(el: Option<string>): (t: string)
    ensures el.None? ==> t == ""
    ensures Trimmed(t)
  {
    Trim(el.GetOr(""))
  }

  const SeekingLabels: seq<string> := ["seeking talent from", "seeking talent in"]

  /** `/Seeking talent (from|in)\s*(.+)/i`: the rest of the line after the phrase, trimmed; "" without a match. */
  function SeekingLocation(seekText: Option<string>): (location: string)
    ensures forall k :: 0 <= k < |location| ==> !IsLineTerminator(location[k])
    ensures Trimmed(location)
  {
    match seekText
    case None => ""
    case Some(t) =>
      match LabelSepRun(t, SeekingLabels, IsSpace, NotLineTerminator, 0)
      case None => ""
      case Some(c) =>
        SeekingCapture(t, c);
        Trim(c)
  }

  lemma SeekingCapture(t: string, c: string)
    requires LabelSepRun(t, SeekingLabels, IsSpace, NotLineTerminator, 0) == Some(c)
    ensures forall k :: 0 <= k < |Trim(c)| ==> !IsLineTerminator(Trim(c)[k])
    ensures Trimmed(Trim(c))
  {
    TrimKeepsClass(c, NotLineTerminator);
  }

  /** `[A-Za-z0-9 ,]` */
  predicate PlaceOrDigitChar(c: char) { IsLetter(c) || IsDigit(c) || c == ' ' || c == ',' }

  /** `/(?:in|from)\s+([A-Za-z0-9 ,]+)/i` in the dates element, trimmed; "" without a match. */
  function DatesLocation(datesText: Option<string>): (location: string)
    ensures forall k :: 0 <= k < |location| ==> PlaceOrDigitChar(location[k])
    ensures Trimmed(location)
  {
    match datesText
    case None => ""
    case Some(t) =>
      match FindInOrFrom(t, PlaceOrDigitChar, 0)
      case None => ""
      case Some(c) =>
        DatesCapture(t, c);
        Trim(c)
  }

  lemma DatesCapture(t: string, c: string)
    requires FindInOrFrom(t, PlaceOrDigitChar, 0) == Some(c)
    ensures forall k :: 0 <= k < |Trim(c)| ==> PlaceOrDigitChar(Trim(c)[k])
    ensures Trimmed(Trim(c))
  {
    TrimKeepsClass(c, PlaceOrDigitChar);
  }

  /** The page's location: the "Seeking talent" place, else the place in the dates element. */
  function DetailLocation(page: BoardPage): (location: string)
    ensures SeekingLocation(page.seekText) != "" ==> location == SeekingLocation(page.seekText)
    ensures SeekingLocation(page.seekText) == "" ==> location == DatesLocation(page.datesText)
    ensures Trimmed(location)
  {
    OrElse(SeekingLocation(page.seekText), DatesLocation(page.datesText))
  }

  /** The script: trimmed texts, the header before any `h1`, the location, and a role per block. */
  function BoardDetailOf(board: Board, page: BoardPage): (d: BoardDetail)
    ensures GetText(page.headerText) != "" ==> d.projectName == GetText(page.headerText)
    ensures GetText(page.headerText) == "" ==> d.projectName == GetText(page.h1Text)
    ensures d.location == DetailLocation(page)
    ensures d.roles == BoardRoles(board, page.roleBlocks, page.url)
  {
    BoardDetail(OrElse(GetText(page.headerText), GetText(page.h1Text)), GetText(page.postedText),
      GetText(page.deadlineText), DetailLocation(page), BoardRoles(board, page.roleBlocks, page.url))
  }

  method EvaluateBoardPage(board: Board, page: BoardPage) returns (d: BoardDetail)
    ensures d == BoardDetailOf(board, page)
  {
    var projectName := GetText(page.headerText);
    if projectName == "" {
      projectName := GetText(page.h1Text);
    }
    var location := PageLocation(page);
    var roles := CollectBoardRoles(board, page.roleBlocks, page.url);
    BoardDetailFields(board, page, projectName, location, roles);
    d := BoardDetail(projectName, GetText(page.postedText), GetText(page.deadlineText), location, roles);
  }

  /** The page's location: the "Seeking talent" match, else the match in the dates element. */
  method PageLocation(page: BoardPage) returns (location: string)
    ensures location == DetailLocation(page)
  {
    location := SeekingMatch(page.seekText);
    if location == "" {
      location := DatesMatch(page.datesText);
    }
  }

  /** The trimmed "Seeking talent" match, or "" when there is none. */
  method SeekingMatch(seekText: Option<string>) returns (location: string)
    ensures location == SeekingLocation(seekText)
  {
    location := "";
    if seekText.Some? {
      var m := LabelSepRun(seekText.value, SeekingLabels, IsSpace, NotLineTerminator, 0);
      if m.Some? {
        location := Trim(m.value);
      }
    }
  }

  /** The trimmed "in"/"from" match of the dates element, or "" when there is none. */
  method DatesMatch(datesText: Option<string>) returns (location: string)
    ensures location == DatesLocation(datesText)
  {
    location := "";
    if datesText.Some? {
      var m := FindInOrFrom(datesText.value, PlaceOrDigitChar, 0);
      if m.Some? {
        location := Trim(m.value);
      }
    }
  }

  lemma BoardDetailFields(board: Board, page: BoardPage, projectName: string, location: string, roles: seq<Role>)
    requires projectName == OrElse(GetText(page.headerText), GetText(page.h1Text))
    requires location == DetailLocation(page)
    requires roles == BoardRoles(board, page.roleBlocks, page.url)
    ensures BoardDetailOf(board, page) == BoardDetail(projectName, GetText(page.postedText), GetText(page.deadlineText), location, roles)
  {
  }

  // ---------- Backstage and Mandy: the record ----------

  /** A record as sent; "" stands for `null`. */
  datatype BoardRecord = BoardRecord(project: string, sourceUrl: string, posted: string, deadline: string, location: string, roles: seq<Role>)

  /**
   * The detail's location after the merge with the listing: Backstage
   * takes the listing's location whenever it has one; Mandy only when the
   * page gave none.
   */
  function MergedLocation(board: Board, item: Listing, detail: BoardDetail): (location: string)
    ensures board.Backstage? && item.location != "" ==> location == item.location
    ensures board.Mandy? && detail.location != "" ==> location == detail.location
    ensures location == item.location || location == detail.location
    ensures location == "" <==> item.location == "" && detail.location == ""
  {
    match board
    case Backstage => if item.location != "" then item.location else detail.location
    case Mandy => if detail.location == "" && item.location != "" then item.location else detail.location
  }

  /** The record of a listing and its (merged) detail; every listing whose page opens gives one. */
  function BoardRecordOf(board: Board, item: Listing, detail: BoardDetail): (r: BoardRecord)
    ensures r.sourceUrl == item.link && r.roles == detail.roles && r.deadline == detail.deadline
    ensures r.project == "" <==> detail.projectName == "" && item.title == ""
    ensures detail.projectName != "" ==> r.project == detail.projectName
    ensures detail.posted != "" ==> r.posted == detail.posted
    ensures detail.posted == "" ==> r.posted == item.posted
    ensures r.location == MergedLocation(board, item, detail)
  {
    var merged := MergedLocation(board, item, detail);
    BoardRecord(OrElse(detail.projectName, item.title), item.link, OrElse(detail.posted, item.posted),
      detail.deadline, OrElse(merged, item.location), detail.roles)
  }

  /** When the listing and the page disagree on the location, Backstage sends the listing's and Mandy the page's. */
  lemma LocationPreference(item: Listing, page: BoardPage)
    requires item.location != "" && DetailLocation(page) != ""
    ensures BoardRecordOf(Backstage, item, BoardDetailOf(Backstage, page)).location == item.location
    ensures BoardRecordOf(Mandy, item, BoardDetailOf(Mandy, page)).location == DetailLocation(page)
  {
  }

  function BoardResult(board: Board, item: Listing, open: string -> Option<BoardPage>): (r: Option<BoardRecord>)
    ensures r.None? <==> open(item.link).None?
    ensures r.Some? ==> r.value.sourceUrl == item.link
  {
    match open(item.link)
    case None => None
    case Some(page) => Some(BoardRecordOf(board, item, BoardDetailOf(board, page)))
  }

  /** The body of the listing loop: the page script, then the merge. */
  method ProcessBoardListing(board: Board, item: Listing, open: string -> Option<BoardPage>) returns (record: Option<BoardRecord>)
    ensures record == BoardResult(board, item, open)
  {
    match open(item.link)
    case None =>
      record := None;
    case Some(page) =>
      var detail := EvaluateBoardPage(board, page);
      if board == Backstage {
        if item.location != "" {
          detail := detail.(location := item.location);
        }
      } else {
        if detail.location == "" && item.location != "" {
          detail := detail.(location := item.location);
        }
      }
      record := Some(BoardRecord(OrElse(detail.projectName, item.title), item.link,
        OrElse(detail.posted, item.posted), detail.deadline, OrElse(detail.location, item.location), detail.roles));
  }

  /** The records of one page of listings, in listing order. */
  function BoardPageRecords(board: Board, listings: seq<Listing>, open: string -> Option<BoardPage>): seq<BoardRecord> {
    Summaries(listings, item => BoardResult(board, item, open))
  }

  /** The listing loop of one page. */
  method ScrapeBoardPage(board: Board, listings: seq<Listing>, open: string -> Option<BoardPage>) returns (pageResults: seq<BoardRecord>)
    ensures pageResults == BoardPageRecords(board, listings, open)
  {
    pageResults := [];
    for i := 0 to |listings|
      invariant pageResults == Summaries(listings[..i], item => BoardResult(board, item, open))
    {
      assert listings[..i + 1][..i] == listings[..i];
      var record := ProcessBoardListing(board, listings[i], open);
      if record.Some? {
        pageResults := pageResults + [record.value];
      }
    }
    assert listings[..|listings|] == listings;
  }

  function BoardRecordUrl(r: BoardRecord): string { r.sourceUrl }

  /** The elements that give a result, in order. */
  function Kept<C, R>(xs: seq<C>, f: C -> Option<R>): seq<C> {
    if xs == [] then []
    else
      var rest := Kept(xs[..|xs| - 1], f);
      if f(xs[|xs| - 1]).Some? then rest + [xs[|xs| - 1]] else rest
  }

  /** The k-th result is the result of the k-th element that gives one. */
  lemma {:induction false} SummariesOfKept<C, R>(xs: seq<C>, f: C -> Option<R>)
    ensures |Summaries(xs, f)| == |Kept(xs, f)|
    ensures forall k :: 0 <= k < |Kept(xs, f)| ==> f(Kept(xs, f)[k]) == Some(Summaries(xs, f)[k])
  {
    if xs != [] {
      var init := xs[..|xs| - 1];
      SummariesOfKept(init, f);
      var last := xs[|xs| - 1];
      var rest, kept := Summaries(init, f), Kept(init, f);
      match f(last)
      case None =>
      case Some(r) =>
        assert Summaries(xs, f) == rest + [r];
        assert Kept(xs, f) == kept + [last];
        forall k | 0 <= k < |Kept(xs, f)| ensures f(Kept(xs, f)[k]) == Some(Summaries(xs, f)[k]) {
          if k < |kept| {
            assert Kept(xs, f)[k] == kept[k] && Summaries(xs, f)[k] == rest[k];
          }
        }
    }
  }

  /**
   * A page gives one record for each listing whose page opens, in listing
   * order, each with that listing's link.
   */
  lemma BoardPageRecordsFollowListings(board: Board, listings: seq<Listing>, open: string -> Option<BoardPage>)
    ensures var reached := Kept(listings, item => BoardResult(board, item, open));
      var rs := BoardPageRecords(board, listings, open);
      |rs| == |reached| &&
      forall k :: 0 <= k < |rs| ==> open(reached[k].link).Some? && rs[k].sourceUrl == reached[k].link
  {
    SummariesOfKept(listings, item => BoardResult(board, item, open));
  }

  /** No two records of a page share a source address. */
  lemma BoardPageRecordsDistinct(board: Board, listings: seq<Listing>, open: string -> Option<BoardPage>)
    requires KeysDistinct(listings, LinkKey)
    ensures KeysDistinct(BoardPageRecords(board, listings, open), BoardRecordUrl)
  {
    SummariesKeepKeysDistinct(listings, item => BoardResult(board, item, open), LinkKey, BoardRecordUrl);
  }
}
