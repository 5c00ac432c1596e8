/**
 * The roles of a casting call, as each scraper reads them from the role
 * blocks of a detail page, and StarNow's pay enrichment from role pages.
 *
 * A role block is the texts its selectors would find, with `None` for an
 * element that is absent. The age expressions are not scanned here: a
 * block carries the text of their first match.
 */
module Roles {
  import opened Wrappers
  import opened Strings
  import opened Scanners
  import opened Listings

  /** A role as the scrapers emit it; "N/A" stands for a field nothing was found for. */
  datatype Role = Role(name: string, applyLink: string, ageRange: string, gender: string, pay: string)

  const UnnamedRole := "Unnamed Role"

  // ---------- pay lines ----------

  /** `parts.join(sep)` */
  function JoinWith(parts: seq<string>, sep: string): (r: string)
    ensures |parts| > 0 ==> parts[0] <= r
  {
    if |parts| == 0 then ""
    else if |parts| == 1 then parts[0]
    else parts[0] + sep + JoinWith(parts[1..], sep)
  }

  /** Every part occurs in the joined text. */
  lemma {:induction false} JoinWithHasParts(parts: seq<string>, sep: string, k: nat)
    requires k < |parts|
    ensures Contains(JoinWith(parts, sep), parts[k])
  {
    var s := JoinWith(parts, sep);
    if k == 0 {
      assert s[0..|parts[0]|] == parts[0];
      assert OccursAt(s, parts[0], 0);
    } else {
      JoinWithHasParts(parts[1..], sep, k - 1);
      var rest := JoinWith(parts[1..], sep);
      ContainsIff(rest, parts[k]);
      var j: nat :| OccursAt(rest, parts[k], j);
      var off := |parts[0]| + |sep|;
      assert s == parts[0] + sep + rest;
      assert s[off + j..off + j + |parts[k]|] == rest[j..j + |parts[k]|];
      assert OccursAt(s, parts[k], off + j);
      ContainsIff(s, parts[k]);
    }
  }

  /** `lines.map(clean).filter(Boolean)` */
  function CleanLines(lines: seq<string>, clean: string -> string): (kept: seq<string>)
    ensures |kept| <= |lines|
    ensures forall k :: 0 <= k < |kept| ==> kept[k] != ""
    ensures forall l :: l in lines && clean(l) != "" ==> clean(l) in kept
    ensures forall k :: 0 <= k < |kept| ==> exists l :: l in lines && kept[k] == clean(l)
  {
    if lines == [] then []
    else
      var rest := CleanLines(lines[1..], clean);
      assert forall k :: 0 <= k < |rest| ==> exists l :: l in lines && rest[k] == clean(l) by {
        forall k | 0 <= k < |rest| ensures exists l :: l in lines && rest[k] == clean(l) {
          var l :| l in lines[1..] && rest[k] == clean(l);
          assert l in lines;
        }
      }
      assert forall l :: l in lines && l != lines[0] ==> l in lines[1..];
      if clean(lines[0]) == "" then rest else [clean(lines[0])] + rest
  }

  /**
   * The pay of a pay element: its lines cleaned, the empty ones dropped and
   * the others joined with " | "; "N/A" when no line is left.
   */
  function PayText(lines: seq<string>, clean: string -> string): (pay: string)
    ensures pay != ""
    ensures (forall l :: l in lines ==> clean(l) == "") ==> pay == "N/A"
    ensures forall l :: l in lines && clean(l) != "" ==> Contains(pay, clean(l))
  {
    var kept := CleanLines(lines, clean);
    if kept == [] then "N/A"
    else
      assert forall l :: l in lines && clean(l) != "" ==> Contains(JoinWith(kept, " | "), clean(l)) by {
        forall l | l in lines && clean(l) != "" ensures Contains(JoinWith(kept, " | "), clean(l)) {
          var k :| 0 <= k < |kept| && kept[k] == clean(l);
          JoinWithHasParts(kept, " | ", k);
        }
      }
      assert kept[0] <= JoinWith(kept, " | ");
      JoinWith(kept, " | ")
  }

  // ---------- StarNow ----------

  /**
   * A StarNow role block: the name element's text, the `href`s of its
   * `mailto:` link and of its casting link, its text, the first match of
   * the age expressions, and the `div` texts of its pay element.
   */
  datatype StarNowRoleBlock = StarNowRoleBlock(
    nameText: Option<string>,
    mailto: Option<string>,
    castingLink: Option<string>,
    text: string,
    ageMatch: Option<string>,
    payLines: Option<seq<string>>)

  const StarNowGenders: seq<string> := ["male", "female", "all genders", "any gender", "non-binary", "trans"]

  /** `text.match(/Male|Female|All Genders|Any Gender|Non-binary|Trans/i)`, or "N/A". */
  function StarNowGender(text: string): (gender: string)
    ensures gender != ""
    ensures gender == "N/A" || ToLower(gender) in StarNowGenders
  {
    FindWord(text, StarNowGenders).GetOr("N/A")
  }

  /**
   * A StarNow role: skipped when the block has neither a `mailto:` link nor
   * a casting link, the `mailto:` link preferred; the name normalised, and
   * "Unnamed Role" without one.
   */
  function StarNowRole(block: StarNowRoleBlock): (r: Option<Role>)
    ensures r.Some? <==> block.mailto.GetOr("") != "" || block.castingLink.GetOr("") != ""
    ensures r.Some? && block.mailto.GetOr("") != "" ==> r.value.applyLink == block.mailto.value
    ensures r.Some? && block.mailto.GetOr("") == "" ==> r.value.applyLink == block.castingLink.value
    ensures r.Some? ==> r.value.applyLink != "" && r.value.pay != "" && r.value.gender != ""
    ensures r.Some? && block.nameText.GetOr("") == "" ==> r.value.name == UnnamedRole
    ensures r.Some? && block.nameText.GetOr("") != "" ==> r.value.name == Norm(block.nameText.value)
    ensures r.Some? && block.payLines.None? ==> r.value.pay == "N/A"
  {
    var applyLink := OrElse(block.mailto.GetOr(""), block.castingLink.GetOr(""));
    if applyLink == "" then None
    else Some(Role(StarNowRoleName(block.nameText), applyLink, block.ageMatch.GetOr("N/A"),
                   StarNowGender(block.text), StarNowPay(block.payLines)))
  }

  /**
   * `norm(nameEl?.innerText || "Unnamed Role")`. The default is already
   * normal (UnnamedRoleIsNormal), so only the element's own text is
   * normalised.
   */
  function StarNowRoleName(nameText: Option<string>): (name: string)
    ensures nameText.GetOr("") == "" ==> name == UnnamedRole
    ensures nameText.GetOr("") != "" ==> name == Norm(nameText.value)
    ensures name == Norm(name)
  {
    if nameText.GetOr("") == "" then
      UnnamedRoleIsNormal();
      UnnamedRole
    else
      NormIdempotent(nameText.value);
      Norm(nameText.value)
  }

  /** The pay element's lines normalised, the empty ones dropped, joined with " | "; "N/A" without any. */
  function StarNowPay(payLines: Option<seq<string>>): (pay: string)
    ensures pay != ""
    ensures payLines.None? ==> pay == "N/A"
  {
    match payLines
    case None => "N/A"
    case Some(lines) => PayText(lines, Norm)
  }

  lemma UnnamedRoleIsNormal()
    ensures Norm(UnnamedRole) == UnnamedRole
  {
    assert Normalized(UnnamedRole) by {
      forall i | 0 <= i < |UnnamedRole| && IsSpace(UnnamedRole[i]) ensures UnnamedRole[i] == ' ' && !IsSpace(UnnamedRole[i + 1]) {
        assert i == 7;
      }
    }
    NormOfNormalized(UnnamedRole);
  }

  /** The role loop of a StarNow detail page. */
  function StarNowRoles(blocks: seq<StarNowRoleBlock>): seq<Role> {
    Summaries(blocks, StarNowRole)
  }

  /** Every StarNow role has an apply link, and there are none exactly when no block has a link. */
  lemma StarNowRolesLinked(blocks: seq<StarNowRoleBlock>)
    ensures forall r :: r in StarNowRoles(blocks) ==> r.applyLink != ""
    ensures StarNowRoles(blocks) == [] <==>
      forall b :: b in blocks ==> b.mailto.GetOr("") == "" && b.castingLink.GetOr("") == ""
  {
    SummariesEmpty(blocks, StarNowRole);
  }

  /** No summary is left exactly when every element is skipped. */
  lemma {:induction false} SummariesEmpty<C, R>(xs: seq<C>, f: C -> Option<R>)
    ensures Summaries(xs, f) == [] <==> forall x :: x in xs ==> f(x).None?
  {
    if xs != [] {
      var prefix := xs[..|xs| - 1];
      SummariesEmpty(prefix, f);
      assert xs == prefix + [xs[|xs| - 1]];
      assert forall x :: x in xs ==> x in prefix || x == xs[|xs| - 1];
    }
  }

  /** The same loop when no element is skipped: one result per element, in order. */
  lemma {:induction false} SummariesOfTotal<C, R>(xs: seq<C>, f: C -> Option<R>)
    requires forall x :: x in xs ==> f(x).Some?
    ensures |Summaries(xs, f)| == |xs|
    ensures forall k :: 0 <= k < |xs| ==> Summaries(xs, f)[k] == f(xs[k]).value
  {
    if xs != [] {
      var prefix := xs[..|xs| - 1];
      assert forall x :: x in prefix ==> x in xs;
      SummariesOfTotal(prefix, f);
      assert Summaries(xs, f) == Summaries(prefix, f) + [f(xs[|xs| - 1]).value];
      forall k | 0 <= k < |xs| ensures Summaries(xs, f)[k] == f(xs[k]).value {
        if k < |prefix| {
          assert xs[k] == prefix[k];
        }
      }
    }
  }

  // ---------- StarNow pay enrichment ----------

  /** A role page: it could not be loaded, or it was, with or without a pay element (the texts of its `div`s). */
  datatype RolePage = Unreachable | Loaded(payLines: Option<seq<string>>)

  /** The pay on a role page: its lines trimmed, the empty ones dropped, joined with " | "; "N/A" without any. */
  function PayFromRole(payLines: Option<seq<string>>): (pay: string)
    ensures pay != ""
  {
    match payLines
    case None => "N/A"
    case Some(lines) => PayText(lines, Trim)
  }

  /** `!(role.pay && role.pay !== "N/A")`: the role's pay is missing. */
  predicate NeedsPay(r: Role) {
    r.pay == "" || r.pay == "N/A"
  }

  /**
   * One role after the enrichment: a role whose pay is missing takes the pay
   * of its role page, when the page loads and shows one.
   */
  function EnrichedRole(r: Role, visit: string -> RolePage): Role {
    EnrichedWith(r, visit(r.applyLink))
  }

  /** A role after the enrichment, given what its role page shows. */
  function EnrichedWith(r: Role, page: RolePage): Role {
    if !NeedsPay(r) then r
    else match page
      case Unreachable => r
      case Loaded(lines) =>
        var payFromRole := PayFromRole(lines);
        if payFromRole != "" && payFromRole != "N/A" then r.(pay := payFromRole) else r
  }

  /**
   * Only the pay changes, only a missing one, and only to the pay of the
   * role's page when that is not "N/A"; such a pay is always taken.
   */
  lemma EnrichedRoleFillsPay(r: Role, visit: string -> RolePage)
    ensures var e := EnrichedRole(r, visit);
      e.(pay := r.pay) == r
      && (!NeedsPay(r) ==> e == r)
      && (e.pay != r.pay ==> NeedsPay(r) && !NeedsPay(e))
      && (e.pay != r.pay ==> visit(r.applyLink).Loaded? && e.pay == PayFromRole(visit(r.applyLink).payLines))
      && (NeedsPay(r) && visit(r.applyLink).Loaded? && !NeedsPay(r.(pay := PayFromRole(visit(r.applyLink).payLines))) ==>
           e.pay == PayFromRole(visit(r.applyLink).payLines))
  {
  }

  function EnrichedRoles(roles: seq<Role>, visit: string -> RolePage): (e: seq<Role>)
    ensures |e| == |roles|
  {
    seq(|roles|, k requires 0 <= k < |roles| => EnrichedRole(roles[k], visit))
  }

  /** The enrichment changes nothing but missing pays: names and apply links stay. */
  lemma EnrichedRolesKeepLinks(roles: seq<Role>, visit: string -> RolePage)
    ensures forall k :: 0 <= k < |roles| ==>
      EnrichedRoles(roles, visit)[k].applyLink == roles[k].applyLink &&
      EnrichedRoles(roles, visit)[k].name == roles[k].name
    ensures forall k :: 0 <= k < |roles| && !NeedsPay(roles[k]) ==> EnrichedRoles(roles, visit)[k] == roles[k]
  {
    forall k | 0 <= k < |roles|
      ensures EnrichedRoles(roles, visit)[k].applyLink == roles[k].applyLink
      ensures EnrichedRoles(roles, visit)[k].name == roles[k].name
    {
      EnrichedRoleFillsPay(roles[k], visit);
    }
  }

  /**
   * The enrichment loop: each role whose pay is missing visits its apply
   * link and, when the page shows a pay, takes it in place.
   */
  method EnrichPay(roles: array<Role>, visit: string -> RolePage)
    modifies roles
    ensures roles[..] == EnrichedRoles(old(roles[..]), visit)
  {
    ghost var want := EnrichedRoles(roles[..], visit);
    for j := 0 to roles.Length
      invariant forall i :: 0 <= i < j ==> roles[i] == want[i]
      invariant forall i :: j <= i < roles.Length ==> roles[i] == old(roles[i])
    {
      roles[j] := EnrichedRole(roles[j], visit);
    }
    assert roles[..] == want;
  }

  // ---------- Backstage and Mandy ----------

  /**
   * A Backstage or Mandy role block: the name element's text, the `href` of
   * its apply link, its text, and the first match of the age expression.
   */
  datatype BoardRoleBlock = BoardRoleBlock(nameText: Option<string>, linkHref: Option<string>, text: string, ageMatch: Option<string>)

  const BoardGenders: seq<string> := ["male", "female", "all genders", "non-binary", "any gender"]

  /** `\b(W1|W2|...)\b` at `i`, for words that start and end with a letter, in the text's own case. */
  function BoundedWordAt(text: string, i: nat, words: seq<string>): (r: Option<string>)
    requires i <= |text|
    ensures r.Some? ==> ToLower(r.value) in words
    ensures r.Some? ==> i + |r.value| <= |text| && r.value == text[i..i + |r.value|]
    ensures r.Some? ==> BoundaryBefore(text, i) && BoundaryAt(text, i + |r.value|)
  {
    var lower := ToLower(text);
    if !BoundaryBefore(text, i) then None
    else match LabelAt(lower, i, words)
      case None => None
      case Some(j) =>
        if !BoundaryAt(text, j) then None
        else
          var k :| 0 <= k < |words| && OccursAt(lower, words[k], i) && j == i + |words[k]|;
          assert ToLower(text[i..j]) == lower[i..j];
          Some(text[i..j])
  }

  /** The leftmost bounded word at or after `from`. */
  function FindBoundedWord(text: string, words: seq<string>, from: nat): (r: Option<string>)
    requires from <= |text|
    ensures r.Some? ==> ToLower(r.value) in words
    ensures r.Some? ==> exists i :: FirstBoundedWordAt(text, words, from, i, r)
    ensures r.None? ==> forall i :: from <= i <= |text| ==> BoundedWordAt(text, i, words).None?
    decreases |text| - from
  {
    match BoundedWordAt(text, from, words)
    case Some(w) =>
      assert FirstBoundedWordAt(text, words, from, from, Some(w));
      Some(w)
    case None =>
      if from == |text| then None
      else
        var r := FindBoundedWord(text, words, from + 1);
        BoundedWordStep(text, words, from, from + 1, r);
        r
  }

  /** `r` is the bounded word at `i`, and none starts from `from` up to `i`. */
  predicate FirstBoundedWordAt(text: string, words: seq<string>, from: nat, i: nat, r: Option<string>) {
    from <= i <= |text| && BoundedWordAt(text, i, words) == r
    && forall j :: from <= j < i ==> BoundedWordAt(text, j, words).None?
  }

  lemma BoundedWordStep(text: string, words: seq<string>, from: nat, next: nat, r: Option<string>)
    requires from < |text| && next == from + 1 && BoundedWordAt(text, from, words).None?
    requires r.Some? ==> exists i :: FirstBoundedWordAt(text, words, next, i, r)
    ensures r.Some? ==> exists i :: FirstBoundedWordAt(text, words, from, i, r)
  {
    if r.Some? {
      var i: nat :| FirstBoundedWordAt(text, words, next, i, r);
      forall j | from <= j < i ensures BoundedWordAt(text, j, words).None? {
        if j > from {
          assert next <= j;
        }
      }
      assert FirstBoundedWordAt(text, words, from, i, r);
    }
  }

  /** `textContent.match(/\b(Male|Female|All Genders|Non-binary|Any Gender)\b/i)`, or "N/A". */
  function BoardGender(text: string): (gender: string)
    ensures gender != ""
    ensures gender == "N/A" || ToLower(gender) in BoardGenders
  {
    FindBoundedWord(text, BoardGenders, 0).GetOr("N/A")
  }

  /** `[A-Za-z$0-9.,]` */
  predicate PayChar(c: char) { IsLetter(c) || IsDigit(c) || c == '$' || c == '.' || c == ',' }

  /** Backstage's `/(?:Rate|Total Pay)[:\s]*([A-Za-z$0-9.,]+)/i` capture, or "N/A". */
  function BackstagePay(text: string): (pay: string)
    ensures pay != ""
    ensures pay == "N/A" || forall k :: 0 <= k < |pay| ==> PayChar(pay[k])
  {
    LabelSepRun(text, ["rate", "total pay"], ColonOrSpace, PayChar, 0).GetOr("N/A")
  }

  predicate NotNewline(c: char) { c != '\n' }

  /** Mandy's `/(?:Rate|Total Pay|Roles paying up to)[:\s]*([^\n]+)/i` capture, or "N/A". */
  function MandyPay(text: string): (pay: string)
    ensures pay != "" && '\n' !in pay
  {
    var r := LabelSepRun(text, ["rate", "total pay", "roles paying up to"], ColonOrSpace, NotNewline, 0);
    assert r.Some? ==> forall k :: 0 <= k < |r.value| ==> r.value[k] != '\n';
    r.GetOr("N/A")
  }

  /**
   * A Backstage or Mandy role: every block gives one. The name is trimmed,
   * "Unnamed Role" when empty; the apply link falls back to the page's own
   * address.
   */
  function BoardRole(block: BoardRoleBlock, pageUrl: string, pay: string): (r: Role)
    ensures r.name != "" && r.gender != ""
    ensures Trim(block.nameText.GetOr("")) != "" ==> r.name == Trim(block.nameText.value)
    ensures Trim(block.nameText.GetOr("")) == "" ==> r.name == UnnamedRole
    ensures block.linkHref.GetOr("") != "" ==> r.applyLink == block.linkHref.value
    ensures block.linkHref.GetOr("") == "" ==> r.applyLink == pageUrl
  {
    Role(OrElse(Trim(block.nameText.GetOr("")), UnnamedRole), OrElse(block.linkHref.GetOr(""), pageUrl),
         block.ageMatch.GetOr("N/A"), BoardGender(block.text), pay)
  }

  /** The two sites whose role blocks are read the same way, apart from the pay expression. */
  datatype Board = Backstage | Mandy

  function BoardPay(board: Board, text: string): (pay: string)
    ensures pay != ""
  {
    match board
    case Backstage => BackstagePay(text)
    case Mandy => MandyPay(text)
  }

  /** The roles of a Backstage or Mandy page: one for each block, in block order. */
  function BoardRoles(board: Board, blocks: seq<BoardRoleBlock>, pageUrl: string): seq<Role> {
    MapSeq(blocks, (b: BoardRoleBlock) => BoardRole(b, pageUrl, BoardPay(board, b.text)))
  }

  /** The role loop of the page script, which pushes a role for every block. */
  method CollectBoardRoles(board: Board, blocks: seq<BoardRoleBlock>, pageUrl: string) returns (roles: seq<Role>)
    ensures roles == BoardRoles(board, blocks, pageUrl)
  {
    roles := [];
    for i := 0 to |blocks|
      invariant roles == BoardRoles(board, blocks[..i], pageUrl)
    {
      BoardRolesStep(board, blocks, pageUrl, i);
      var role := ReadBoardRole(board, blocks[i], pageUrl);
      roles := roles + [role];
    }
    assert blocks[..|blocks|] == blocks;
  }

  lemma BoardRolesStep(board: Board, blocks: seq<BoardRoleBlock>, pageUrl: string, i: nat)
    requires i < |blocks|
    ensures BoardRoles(board, blocks[..i + 1], pageUrl) ==
      BoardRoles(board, blocks[..i], pageUrl) + [BoardRole(blocks[i], pageUrl, BoardPay(board, blocks[i].text))]
  {
    MapSeqStep(blocks, (b: BoardRoleBlock) => BoardRole(b, pageUrl, BoardPay(board, b.text)), i);
  }

  /** The body of the role loop for one block. */
  method ReadBoardRole(board: Board, b: BoardRoleBlock, pageUrl: string) returns (role: Role)
    ensures role == BoardRole(b, pageUrl, BoardPay(board, b.text))
  {
    var name := Trim(b.nameText.GetOr(""));
    if name == "" {
      name := UnnamedRole;
    }
    var applyLink := b.linkHref.GetOr("");
    if applyLink == "" {
      applyLink := pageUrl;
    }
    role := Role(name, applyLink, b.ageMatch.GetOr("N/A"), BoardGender(b.text), BoardPay(board, b.text));
  }

  /**
   * Every role of a Backstage or Mandy page has a name, a gender and a pay
   * (each possibly "N/A"), and on a page with an address an apply link.
   */
  lemma BoardRolesComplete(board: Board, blocks: seq<BoardRoleBlock>, pageUrl: string)
    ensures |BoardRoles(board, blocks, pageUrl)| == |blocks|
    ensures forall r :: r in BoardRoles(board, blocks, pageUrl) ==> r.name != "" && r.gender != "" && r.pay != ""
    ensures pageUrl != "" ==> forall r :: r in BoardRoles(board, blocks, pageUrl) ==> r.applyLink != ""
  {
  }
}
