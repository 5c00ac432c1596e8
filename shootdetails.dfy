/**
 * The "Dates & Locations" logic of a StarNow detail page: the candidate
 * texts gathered from the page, the choice of the one that looks most like
 * a date, the shoot date read from it by a cascade of patterns, and the
 * shoot location.
 */
module ShootDetails {
  import opened Wrappers
  import opened Strings
  import opened Scanners
  import opened Dedup

  // ---------- gathering candidates ----------

  /** A "Dates & Locations"-style heading and the text of the first `<p>` that follows it. */
  datatype Heading = Heading(text: string, nextParagraph: Option<string>)

  /** The details block: the texts of its paragraphs and its own text. */
  datatype DetailsBlock = DetailsBlock(paragraphs: seq<string>, text: string)

  /**
   * The parts of a detail page the candidates come from: the Linkify spans
   * of the details block, the block itself, the headings inside it, and the
   * first Linkify span anywhere on the page.
   */
  datatype DetailsPage = DetailsPage(
    linkifySpans: seq<string>,
    detailsBlock: Option<DetailsBlock>,
    headings: seq<Heading>,
    anyLinkify: Option<string>)

  /** `if (x && x.textContent) candidates.push(norm(x.textContent))` for each text. */
  function NormOfNonEmpty(texts: seq<string>): (r: seq<string>)
    ensures |r| <= |texts|
  {
    if texts == [] then []
    else
      var rest := NormOfNonEmpty(texts[..|texts| - 1]);
      var t := texts[|texts| - 1];
      if t != "" then rest + [Norm(t)] else rest
  }

  /** Pushing the texts of `a` and then of `b` gives the candidates of `a` followed by those of `b`: the order is kept. */
  lemma {:induction false} NormOfNonEmptyAppend(a: seq<string>, b: seq<string>)
    ensures NormOfNonEmpty(a + b) == NormOfNonEmpty(a) + NormOfNonEmpty(b)
  {
    if b == [] {
      assert a + b == a;
    } else {
      var init, last := b[..|b| - 1], b[|b| - 1];
      NormOfNonEmptyAppend(a, init);
      NormOfNonEmptyAppendStep(a, init, last);
      InitThenLast(b);
    }
  }

  lemma InitThenLast<T>(b: seq<T>)
    requires b != []
    ensures b == b[..|b| - 1] + [b[|b| - 1]]
  {
  }

  lemma NormOfNonEmptyAppendStep(a: seq<string>, init: seq<string>, last: string)
    requires NormOfNonEmpty(a + init) == NormOfNonEmpty(a) + NormOfNonEmpty(init)
    ensures NormOfNonEmpty(a + (init + [last])) == NormOfNonEmpty(a) + NormOfNonEmpty(init + [last])
  {
    NormOfNonEmptyLast(a + init, last);
    NormOfNonEmptyLast(init, last);
    AppendAssociates(a, init, [last]);
    AppendAssociates(NormOfNonEmpty(a), NormOfNonEmpty(init), if last != "" then [Norm(last)] else []);
  }

  lemma PrefixStep<T>(xs: seq<T>, i: nat)
    requires i < |xs|
    ensures xs[..i + 1] == xs[..i] + [xs[i]]
  {
  }

  lemma AppendAssociates<T>(a: seq<T>, b: seq<T>, c: seq<T>)
    ensures a + (b + c) == (a + b) + c
  {
  }

  /** One more text pushes its normalised form when it is non-empty, and nothing otherwise. */
  lemma NormOfNonEmptyLast(texts: seq<string>, t: string)
    ensures NormOfNonEmpty(texts + [t]) == NormOfNonEmpty(texts) + (if t != "" then [Norm(t)] else [])
  {
    assert (texts + [t])[..|texts|] == texts;
  }

  /** Every non-empty text is pushed, normalised. */
  lemma {:induction false} NormOfNonEmptyComplete(texts: seq<string>)
    ensures forall t :: t in texts && t != "" ==> Norm(t) in NormOfNonEmpty(texts)
  {
    if texts != [] {
      var init := texts[..|texts| - 1];
      NormOfNonEmptyComplete(init);
      assert texts == init + [texts[|texts| - 1]];
    }
  }

  /** Each pushed candidate is the normalised text of a non-empty text. */
  lemma {:induction false} NormOfNonEmptyFrom(texts: seq<string>)
    ensures forall c :: c in NormOfNonEmpty(texts) ==> exists t :: t in texts && t != "" && c == Norm(t)
  {
    if texts != [] {
      var init := texts[..|texts| - 1];
      NormOfNonEmptyFrom(init);
      forall c | c in NormOfNonEmpty(texts) ensures exists t :: t in texts && t != "" && c == Norm(t) {
        if c in NormOfNonEmpty(init) {
          var t :| t in init && t != "" && c == Norm(t);
          assert t in texts;
        } else {
          assert c == Norm(texts[|texts| - 1]);
        }
      }
    }
  }

  /** A heading is taken when its lower-cased text mentions both "dates" and "locations". */
  predicate DatesHeading(h: Heading) {
    var lower := ToLower(h.text);
    Contains(lower, "dates") && Contains(lower, "locations")
  }

  /** The paragraph texts that follow the "Dates & Locations" headings. */
  function HeadingParagraphs(headings: seq<Heading>): seq<string> {
    if headings == [] then []
    else
      var rest := HeadingParagraphs(headings[..|headings| - 1]);
      var h := headings[|headings| - 1];
      if DatesHeading(h) && h.nextParagraph.Some? then rest + [h.nextParagraph.value] else rest
  }

  function BlockParagraphs(page: DetailsPage): seq<string> {
    match page.detailsBlock case Some(b) => b.paragraphs case None => []
  }

  /** The candidates before the two fallbacks: spans, then block paragraphs, then heading paragraphs. */
  function PrimaryCandidates(page: DetailsPage): seq<string> {
    NormOfNonEmpty(page.linkifySpans) + NormOfNonEmpty(BlockParagraphs(page)) + NormOfNonEmpty(HeadingParagraphs(page.headings))
  }

  /**
   * All candidates: the primary ones; when there are none, the first Linkify
   * span of the page; when there are still none, the block's whole text if
   * it is not blank.
   */
  function Candidates(page: DetailsPage): (cands: seq<string>)
    ensures PrimaryCandidates(page) != [] ==> cands == PrimaryCandidates(page)
    ensures |cands| <= |PrimaryCandidates(page)| + 1
    ensures PrimaryCandidates(page) == [] && page.anyLinkify.Some? && page.anyLinkify.value != "" ==>
      cands == [Norm(page.anyLinkify.value)]
    ensures PrimaryCandidates(page) == [] && !(page.anyLinkify.Some? && page.anyLinkify.value != "") ==>
      (cands != [] <==> page.detailsBlock.Some? && !AllSpace(page.detailsBlock.value.text))
    ensures PrimaryCandidates(page) == [] && !(page.anyLinkify.Some? && page.anyLinkify.value != "") && cands != [] ==>
      cands == [Norm(page.detailsBlock.value.text)]
  {
    var primary := PrimaryCandidates(page);
    if primary != [] then primary
    else if page.anyLinkify.Some? && page.anyLinkify.value != "" then [Norm(page.anyLinkify.value)]
    else if page.detailsBlock.Some? && Norm(page.detailsBlock.value.text) != "" then [Norm(page.detailsBlock.value.text)]
    else []
  }

  /** One of the gathering loops: the normalised non-empty texts pushed onto `cands`. */
  method PushNormOfNonEmpty(cands: seq<string>, texts: seq<string>) returns (out: seq<string>)
    ensures out == cands + NormOfNonEmpty(texts)
  {
    out := cands;
    for i := 0 to |texts|
      invariant out == cands + NormOfNonEmpty(texts[..i])
    {
      PrefixStep(texts, i);
      NormOfNonEmptyLast(texts[..i], texts[i]);
      if texts[i] != "" {
        AppendAssociates(cands, NormOfNonEmpty(texts[..i]), [Norm(texts[i])]);
        out := out + [Norm(texts[i])];
      }
    }
    assert texts[..|texts|] == texts;
  }

  /** The heading loop: the paragraph after each "Dates & Locations" heading. */
  method CollectHeadingParagraphs(headings: seq<Heading>) returns (ps: seq<string>)
    ensures ps == HeadingParagraphs(headings)
  {
    ps := [];
    for i := 0 to |headings|
      invariant ps == HeadingParagraphs(headings[..i])
    {
      assert headings[..i + 1][..i] == headings[..i];
      var h := headings[i];
      var lower := ToLower(h.text);
      if Contains(lower, "dates") && Contains(lower, "locations") && h.nextParagraph.Some? {
        ps := ps + [h.nextParagraph.value];
      }
    }
    assert headings[..|headings|] == headings;
  }

  /** The gathering steps of the detail page, in order, with both fallbacks. */
  method GatherCandidates(page: DetailsPage) returns (cands: seq<string>)
    ensures cands == Candidates(page)
  {
    var spans := PushNormOfNonEmpty([], page.linkifySpans);
    ghost var a := NormOfNonEmpty(page.linkifySpans);
    assert spans == a by { assert [] + a == a; }
    var paragraphs := PushNormOfNonEmpty(spans, BlockParagraphs(page));
    ghost var b := NormOfNonEmpty(BlockParagraphs(page));
    var ps := CollectHeadingParagraphs(page.headings);
    cands := PushNormOfNonEmpty(paragraphs, ps);
    ghost var c := NormOfNonEmpty(HeadingParagraphs(page.headings));
    assert cands == a + b + c;
    if |cands| == 0 && page.anyLinkify.Some? && page.anyLinkify.value != "" {
      cands := cands + [Norm(page.anyLinkify.value)];
    }
    if |cands| == 0 && page.detailsBlock.Some? {
      var text := Norm(page.detailsBlock.value.text);
      if text != "" {
        cands := cands + [text];
      }
    }
  }

  lemma NormOfNonEmptyNormalized(texts: seq<string>)
    ensures forall c :: c in NormOfNonEmpty(texts) ==> Normalized(c)
  {
    NormOfNonEmptyFrom(texts);
    forall c | c in NormOfNonEmpty(texts) ensures Normalized(c) {
      var t :| t in texts && t != "" && c == Norm(t);
    }
  }

  /** Every candidate is normalised text, so it has no line break: the shoot-date patterns see one line. */
  lemma CandidatesOneLine(page: DetailsPage)
    ensures forall c :: c in Candidates(page) ==> Normalized(c) && OneLine(c, 0, |c|)
  {
    CandidatesNormalized(page);
    forall c | c in Candidates(page) ensures OneLine(c, 0, |c|) {
      forall i | 0 <= i < |c| ensures !IsLineTerminator(c[i]) {
        if IsSpace(c[i]) { assert c[i] == ' '; }
      }
    }
  }

  /** Every candidate is normalised text. */
  lemma CandidatesNormalized(page: DetailsPage)
    ensures forall c :: c in Candidates(page) ==> Normalized(c)
  {
    NormOfNonEmptyNormalized(page.linkifySpans);
    NormOfNonEmptyNormalized(BlockParagraphs(page));
    NormOfNonEmptyNormalized(HeadingParagraphs(page.headings));
    if page.anyLinkify.Some? {
    }
    if page.detailsBlock.Some? {
    }
  }

  // ---------- choosing a candidate ----------

  const KeywordWords: seq<string> := [
    "shoot", "record", "film", "between", "from", "to", "until", "by", "date", "availability",
    "nov", "dec", "jan", "feb", "mar", "apr", "may", "jun", "jul", "aug", "sep", "oct"]

  const RangeWords: seq<string> := ["between", "from", "to", "until", "by"]

  const MonthWords: seq<string> := ["jan", "feb", "mar", "apr", "may", "jun", "jul", "aug", "sep", "sept", "oct", "nov", "dec"]

  /** `dateKeywords.test(u)`: one of the words occurs anywhere, in any case (`dates?` is found through "date"). */
  predicate HasDateKeyword(u: string) {
    ContainsAnyIgnoringCase(u, KeywordWords)
  }

  /** `\b\d{1,2}\b` at `i`. */
  predicate ShortNumberAt(s: string, i: nat)
    requires i < |s|
  {
    var n := OneOrTwoDigits(s, i);
    n > 0 && BoundaryBefore(s, i) && BoundaryAt(s, i + n)
  }

  /** `\bJan\b` and the other month words at `i`, in any case. */
  predicate MonthWordAt(lower: string, i: nat)
    requires i <= |lower|
  {
    exists k :: 0 <= k < |MonthWords| && OccursAt(lower, MonthWords[k], i)
      && BoundaryBefore(lower, i) && BoundaryAt(lower, i + |MonthWords[k]|)
  }

  /** `dateLikeTest(s)` */
  predicate DateLike(s: string) {
    ContainsAnyIgnoringCase(s, RangeWords)
    || (exists i :: 0 <= i < |s| && ShortNumberAt(s, i))
    || (exists i :: 0 <= i <= |s| && MonthWordAt(ToLower(s), i))
  }

  /** `xs.find(p)`: the first element that passes `p`, `None` for `undefined`. */
  function Find(xs: seq<string>, p: string -> bool): (r: Option<string>)
    ensures r.Some? ==> exists k :: 0 <= k < |xs| && xs[k] == r.value && p(r.value) && forall j :: 0 <= j < k ==> !p(xs[j])
    ensures r.None? ==> forall u :: u in xs ==> !p(u)
  {
    if xs == [] then None
    else if p(xs[0]) then Some(xs[0])
    else
      var r := Find(xs[1..], p);
      assert r.Some? ==> exists k :: 0 <= k < |xs| && xs[k] == r.value && p(r.value) && forall j :: 0 <= j < k ==> !p(xs[j]) by {
        if r.Some? {
          var k :| 0 <= k < |xs[1..]| && xs[1..][k] == r.value && p(r.value) && forall j :: 0 <= j < k ==> !p(xs[1..][j]);
          assert xs[k + 1] == r.value;
        }
      }
      r
  }

  /** `xs[0]`, with `undefined` written "". */
  function FirstOr(xs: seq<string>): string {
    if xs == [] then "" else xs[0]
  }

  /** The first non-empty string of `xs`, or "". */
  function FirstNonEmpty(xs: seq<string>): (r: string)
    ensures r != "" ==> r in xs
    ensures r == "" <==> forall u :: u in xs ==> u == ""
  {
    if xs == [] then "" else if xs[0] != "" then xs[0]
    else
      var r := FirstNonEmpty(xs[1..]);
      assert forall u :: u in xs ==> u == xs[0] || u in xs[1..];
      r
  }

  /** JavaScript's `length`: UTF-16 code units, two for a character beyond U+FFFF. */
  function Utf16Length(u: string): (n: nat)
    ensures |u| <= n <= 2 * |u|
    ensures (forall k :: 0 <= k < |u| ==> u[k] as int <= 0xFFFF) ==> n == |u|
  {
    if u == [] then 0 else (if u[0] as int > 0xFFFF then 2 else 1) + Utf16Length(u[1..])
  }

  /** `u.length < 200` */
  predicate Short(u: string) { Utf16Length(u) < 200 }

  predicate KeywordAndDateLike(u: string) { HasDateKeyword(u) && DateLike(u) }

  /** `uniq.filter(u => u.length < 200)` */
  function ShortOnes(uniq: seq<string>): (r: seq<string>)
    ensures forall u :: u in r <==> u in uniq && Short(u)
  {
    if uniq == [] then []
    else (if Short(uniq[0]) then [uniq[0]] else []) + ShortOnes(uniq[1..])
  }

  /** Steps 1 to 4 of the choice: the finds, each tried when the ones before find nothing. */
  function FindSteps(uniq: seq<string>): string {
    var filtered := ShortOnes(uniq);
    OrElse(Find(filtered, KeywordAndDateLike).GetOr(""),
      OrElse(Find(filtered, HasDateKeyword).GetOr(""),
        OrElse(Find(filtered, DateLike).GetOr(""), Find(uniq, DateLike).GetOr(""))))
  }

  /**
   * The choice as written: steps 1 to 4, then `filtered[0] || uniq[0] || "N/A"`.
   * When the first candidate is the empty string, both fallbacks are that
   * empty string and the choice is "N/A", whatever follows it.
   */
  function ChooseAsWritten(uniq: seq<string>): (chosen: string)
    ensures chosen != ""
    ensures chosen == "N/A" || chosen in uniq
    ensures uniq != [] && uniq[0] != "" ==> chosen in uniq
    ensures (forall u :: u in uniq ==> u == "") ==> chosen == "N/A"
  {
    var filtered := ShortOnes(uniq);
    FindStepsFromCandidates(uniq);
    assert FirstOr(filtered) != "" ==> FirstOr(filtered) in uniq by {
      if filtered != [] { assert filtered[0] in filtered; }
    }
    OrElse(FindSteps(uniq), OrElse(FirstOr(filtered), OrElse(FirstOr(uniq), "N/A")))
  }

  /** Steps 1 to 4 find a non-empty candidate or nothing. */
  lemma FindStepsFromCandidates(uniq: seq<string>)
    ensures FindSteps(uniq) != "" ==> FindSteps(uniq) in uniq
  {
    var filtered := ShortOnes(uniq);
    EmptyIsNoDate();
    FindNonEmpty(filtered, KeywordAndDateLike);
    FindNonEmpty(filtered, HasDateKeyword);
    FindNonEmpty(filtered, DateLike);
    FindNonEmpty(uniq, DateLike);
  }

  /** The choice with its fallbacks taking the first non-empty short candidate, else the first non-empty one. */
  function Choose(uniq: seq<string>): (chosen: string)
    ensures chosen != ""
    ensures chosen == "N/A" || chosen in uniq
    ensures (exists u :: u in uniq && u != "") ==> chosen in uniq
    ensures (forall u :: u in uniq ==> u == "") ==> chosen == "N/A"
  {
    var steps := FindSteps(uniq);
    var filtered := ShortOnes(uniq);
    FindStepsFromCandidates(uniq);
    if steps != "" then steps
    else if FirstNonEmpty(filtered) != "" then FirstNonEmpty(filtered)
    else if FirstNonEmpty(uniq) != "" then FirstNonEmpty(uniq)
    else "N/A"
  }

  /** Neither test passes on the empty string, so a find never yields it. */
  lemma EmptyIsNoDate()
    ensures !DateLike("") && !HasDateKeyword("")
  {
    assert ToLower("") == "";
  }

  /** A find whose test fails on "" yields a non-empty candidate. */
  lemma FindNonEmpty(xs: seq<string>, p: string -> bool)
    requires !p("")
    ensures Find(xs, p).Some? ==> Find(xs, p).value != "" && Find(xs, p).value in xs
  {
  }

  /**
   * A short candidate that has a date keyword and looks like a date wins:
   * the choice is the first such short candidate.
   */
  lemma ChooseKeywordDateFirst(uniq: seq<string>)
    requires exists u :: u in uniq && Short(u) && KeywordAndDateLike(u)
    ensures KeywordAndDateLike(ChooseAsWritten(uniq)) && Short(ChooseAsWritten(uniq))
    ensures ChooseAsWritten(uniq) == Find(ShortOnes(uniq), KeywordAndDateLike).value
    ensures Choose(uniq) == ChooseAsWritten(uniq)
  {
    var filtered := ShortOnes(uniq);
    var u :| u in uniq && Short(u) && KeywordAndDateLike(u);
    assert u in filtered;
    EmptyIsNoDate();
    FindNonEmpty(filtered, KeywordAndDateLike);
  }

  /**
   * Step 2: when no short candidate has both a keyword and a date-like look,
   * the first short candidate with a date keyword is the choice.
   */
  lemma ChooseKeywordSecond(uniq: seq<string>)
    requires forall u :: u in uniq && Short(u) ==> !KeywordAndDateLike(u)
    requires exists u :: u in uniq && Short(u) && HasDateKeyword(u)
    ensures HasDateKeyword(ChooseAsWritten(uniq)) && Short(ChooseAsWritten(uniq))
    ensures ChooseAsWritten(uniq) == Find(ShortOnes(uniq), HasDateKeyword).value
    ensures Choose(uniq) == ChooseAsWritten(uniq)
  {
    var filtered := ShortOnes(uniq);
    var u :| u in uniq && Short(u) && HasDateKeyword(u);
    assert u in filtered;
    assert Find(filtered, KeywordAndDateLike).None?;
    EmptyIsNoDate();
    FindNonEmpty(filtered, HasDateKeyword);
  }

  /**
   * Step 3: when no short candidate has a date keyword, the first short
   * date-like candidate is the choice.
   */
  lemma ChooseShortDateLikeThird(uniq: seq<string>)
    requires forall u :: u in uniq && Short(u) ==> !HasDateKeyword(u)
    requires exists u :: u in uniq && Short(u) && DateLike(u)
    ensures DateLike(ChooseAsWritten(uniq)) && Short(ChooseAsWritten(uniq))
    ensures ChooseAsWritten(uniq) == Find(ShortOnes(uniq), DateLike).value
    ensures Choose(uniq) == ChooseAsWritten(uniq)
  {
    var filtered := ShortOnes(uniq);
    var u :| u in uniq && Short(u) && DateLike(u);
    assert u in filtered;
    assert Find(filtered, KeywordAndDateLike).None?;
    assert Find(filtered, HasDateKeyword).None?;
    EmptyIsNoDate();
    FindNonEmpty(filtered, DateLike);
  }

  /**
   * Step 4: when no short candidate has a date keyword or looks like a date,
   * the first date-like candidate of the whole list, a long one, is the choice.
   */
  lemma ChooseLongDateLikeFourth(uniq: seq<string>)
    requires forall u :: u in uniq && Short(u) ==> !HasDateKeyword(u) && !DateLike(u)
    requires exists u :: u in uniq && DateLike(u)
    ensures DateLike(ChooseAsWritten(uniq)) && !Short(ChooseAsWritten(uniq))
    ensures ChooseAsWritten(uniq) == Find(uniq, DateLike).value
    ensures Choose(uniq) == ChooseAsWritten(uniq)
  {
    var filtered := ShortOnes(uniq);
    var u :| u in uniq && DateLike(u);
    assert Find(filtered, KeywordAndDateLike).None?;
    assert Find(filtered, HasDateKeyword).None?;
    assert Find(filtered, DateLike).None?;
    EmptyIsNoDate();
    FindNonEmpty(uniq, DateLike);
  }

  /** As written, with no date-like and no keyword candidate, a non-empty short first candidate is the choice. */
  lemma ChooseAsWrittenFallsBackToFirst(uniq: seq<string>)
    requires forall u :: u in uniq ==> !DateLike(u) && !HasDateKeyword(u)
    requires uniq != [] && uniq[0] != "" && Short(uniq[0])
    ensures ChooseAsWritten(uniq) == uniq[0]
  {
    var filtered := ShortOnes(uniq);
    assert Find(filtered, KeywordAndDateLike).None?;
    assert Find(filtered, HasDateKeyword).None?;
    assert Find(filtered, DateLike).None?;
    assert Find(uniq, DateLike).None?;
    assert filtered[0] == uniq[0];
  }

  /** Corrected: with no date-like and no keyword candidate, the choice is the first non-empty short candidate. */
  lemma ChooseFallsBackToFirstText(uniq: seq<string>)
    requires forall u :: u in uniq ==> !DateLike(u) && !HasDateKeyword(u)
    requires FirstNonEmpty(ShortOnes(uniq)) != ""
    ensures Choose(uniq) == FirstNonEmpty(ShortOnes(uniq))
  {
    var filtered := ShortOnes(uniq);
    assert Find(filtered, KeywordAndDateLike).None?;
    assert Find(filtered, HasDateKeyword).None?;
    assert Find(filtered, DateLike).None?;
    assert Find(uniq, DateLike).None?;
  }

  /** No word of `words` occurs in `s` when each misses a character that `s` lacks. */
  lemma NoneOccurs(s: string, words: seq<string>, missing: seq<char>)
    requires |missing| == |words|
    requires forall k :: 0 <= k < |words| ==> missing[k] in words[k] && missing[k] !in s
    ensures forall k :: 0 <= k < |words| ==> !Contains(s, words[k])
  {
    forall k | 0 <= k < |words| ensures !Contains(s, words[k]) {
      NotOccursWithoutChar(s, words[k], missing[k]);
      ContainsIff(s, words[k]);
    }
  }

  /** The same, in any case, for words each holding a lower-case letter that the lower-cased text lacks. */
  lemma NoneOccursIgnoringCase(s: string, words: seq<string>, missing: seq<char>)
    requires |missing| == |words|
    requires forall k :: 0 <= k < |words| ==> IsLower(missing[k]) && missing[k] in words[k] && missing[k] !in ToLower(s)
    ensures forall k :: 0 <= k < |words| ==> !ContainsIgnoringCase(s, words[k])
  {
    forall k | 0 <= k < |words| ensures !ContainsIgnoringCase(s, words[k]) {
      var j :| 0 <= j < |words[k]| && words[k][j] == missing[k];
      assert ToLower(words[k])[j] == missing[k];
      NotOccursWithoutChar(ToLower(s), ToLower(words[k]), missing[k]);
      ContainsIff(ToLower(s), ToLower(words[k]));
    }
  }

  /** "TBC" has no date keyword and does not look like a date. */
  lemma TbcIsNoDate()
    ensures !HasDateKeyword("TBC") && !DateLike("TBC")
  {
    var lower := ToLower("TBC");
    assert lower == "tbc";
    NoneOccursIgnoringCase("TBC", KeywordWords, "srfefouydandjfmamjjaso");
    NoneOccursIgnoringCase("TBC", RangeWords, "efouy");
    NoMonthWordInTbc(lower);
  }

  lemma NoMonthWordInTbc(lower: string)
    requires lower == "tbc"
    ensures forall i :: 0 <= i <= |lower| ==> !MonthWordAt(lower, i)
  {
    NoneOccurs(lower, MonthWords, "jfmamjjassond");
    forall i | 0 <= i <= |lower| ensures !MonthWordAt(lower, i) {
      forall k | 0 <= k < |MonthWords| ensures !OccursAt(lower, MonthWords[k], i) {
        ContainsIff(lower, MonthWords[k]);
      }
    }
  }

  /** The choice as written loses "TBC" behind an empty first paragraph; the corrected choice keeps it. */
  lemma EmptyFirstCandidateHidesText()
    ensures ChooseAsWritten(["", "TBC"]) == "N/A"
    ensures Choose(["", "TBC"]) == "TBC"
  {
    var uniq := ["", "TBC"];
    TbcIsNoDate();
    EmptyIsNoDate();
    assert ShortOnes(uniq) == uniq by {
      assert uniq[1..] == ["TBC"];
      assert ShortOnes(["TBC"]) == ["TBC"] by { assert ["TBC"][1..] == []; }
    }
    ChooseFallsBackToFirstText(uniq);
    assert FirstNonEmpty(uniq) == "TBC" by { assert uniq[1..] == ["TBC"]; }
    assert Find(uniq, KeywordAndDateLike).None?;
    assert Find(uniq, HasDateKeyword).None?;
    assert Find(uniq, DateLike).None?;
  }

  // ---------- the shoot date ----------

  /** `[‒–—―]` */
  predicate IsDash(c: char) { '‒' <= c <= '―' }

  /** Every figure, en, em and horizontal-bar dash becomes a hyphen. */
  function ReplaceDashes(s: string): (r: string)
    ensures |r| == |s|
    ensures forall i :: 0 <= i < |s| ==> r[i] == (if IsDash(s[i]) then '-' else s[i])
    ensures forall i :: 0 <= i < |r| ==> !IsDash(r[i])
  {
    seq(|s|, i requires 0 <= i < |s| => if IsDash(s[i]) then '-' else s[i])
  }

  /** The first position at or after `i` that holds '.' or ',', or the end. */
  function StopAt(s: string, i: nat): (e: nat)
    requires i <= |s|
    ensures i <= e <= |s|
    ensures e < |s| ==> s[e] == '.' || s[e] == ','
    ensures forall k :: i <= k < e ==> s[k] != '.' && s[k] != ','
    decreases |s| - i
  {
    if i == |s| || s[i] == '.' || s[i] == ',' then i else StopAt(s, i + 1)
  }

  predicate OneLine(s: string, k: nat, e: nat)
    requires k <= e <= |s|
  {
    forall p :: k <= p < e ==> !IsLineTerminator(s[p])
  }

  /**
   * `\s*(.+?)(?:[.,]|$)` from `j`: `\s*` takes every space, `.+?` then takes
   * one character and grows until a '.' or ',' or the end follows. At the end
   * of the text `\s*` gives one space back for `.+?`. When a line break lies
   * before the stop, `.` cannot cross it, and the only way left is for `\s*`
   * to give back its last space: that works when the space is not itself a
   * line break and a '.' or ',' follows it.
   */
  function LazyToStop(s: string, j: nat): (r: Option<string>)
    requires j <= |s|
    ensures r.Some? ==> r.value != [] && forall k :: 0 <= k < |r.value| ==> !IsLineTerminator(r.value[k])
  {
    var k := SpaceEnd(s, j);
    if k < |s| then
      var e := StopAt(s, k + 1);
      if OneLine(s, k, e) then Some(s[k..e])
      else if k > j && (s[k] == '.' || s[k] == ',') && !IsLineTerminator(s[k - 1]) then Some(s[k - 1..k])
      else None
    else if k > j && !IsLineTerminator(s[k - 1]) then Some(s[k - 1..k])
    else None
  }

  /** With a line break before the stop, `\s*` gives back the space before a ',' and that space is the capture. */
  lemma LazyToStopGivesBackSpace()
    ensures LazyToStop(" ,x\ny", 0) == Some(" ")
  {
    var s := " ,x\ny";
    assert SpaceEnd(s, 0) == 1;
    assert StopAt(s, 2) == 5;
    assert IsLineTerminator(s[3]) && !OneLine(s, 1, 5);
    assert s[1] == ',' && !IsLineTerminator(s[0]) && s[0..1] == " ";
  }

  /** `/WORD\s*(.+?)(?:[.,]|$)/i` at `i`: the capture of a match that starts there. */
  function WordLazyAt(s: string, word: string, i: nat): (r: Option<string>)
    ensures r.Some? ==> r.value != [] && OccursAt(ToLower(s), word, i)
  {
    if OccursAt(ToLower(s), word, i) then LazyToStop(s, i + |word|) else None
  }

  /**
   * `/WORD\s*(.+?)(?:[.,]|$)/i` from `from`: the capture at the leftmost
   * position that matches, or None when no position does.
   */
  function WordThenLazy(s: string, word: string, from: nat): (r: Option<string>)
    ensures r.Some? ==> r.value != []
    ensures r.Some? ==>
      exists i :: from <= i <= |s| && WordLazyAt(s, word, i) == r &&
        forall j :: from <= j < i ==> WordLazyAt(s, word, j).None?
    ensures r.None? ==> forall i :: from <= i <= |s| ==> WordLazyAt(s, word, i).None?
  {
    var scan := (i: nat) => WordLazyAt(s, word, i);
    assert forall i: nat :: scan(i) == WordLazyAt(s, word, i);
    Leftmost(scan, from, |s|)
  }

  /** `/between\s+now\s+and\s*(.+?)(?:[.,]|$)/i` at `i`. */
  function BetweenNowAndAt(s: string, i: nat): (r: Option<string>)
    ensures r.Some? ==> r.value != [] && OccursAt(ToLower(s), "between", i)
  {
    var lower := ToLower(s);
    if !OccursAt(lower, "between", i) then None
    else
      var k1 := SpaceEnd(s, i + 7);
      if k1 == i + 7 || !OccursAt(lower, "now", k1) then None
      else
        var k2 := SpaceEnd(s, k1 + 3);
        if k2 == k1 + 3 || !OccursAt(lower, "and", k2) then None
        else LazyToStop(s, k2 + 3)
  }

  /** The "between now and" capture at the leftmost position that matches, or None when none does. */
  function FindBetweenNowAnd(s: string, from: nat): (r: Option<string>)
    ensures r.Some? ==> r.value != []
    ensures r.Some? ==>
      exists i :: from <= i <= |s| && BetweenNowAndAt(s, i) == r &&
        forall j :: from <= j < i ==> BetweenNowAndAt(s, j).None?
    ensures r.None? ==> forall i :: from <= i <= |s| ==> BetweenNowAndAt(s, i).None?
  {
    var scan := (i: nat) => BetweenNowAndAt(s, i);
    assert forall i: nat :: scan(i) == BetweenNowAndAt(s, i);
    Leftmost(scan, from, |s|)
  }

  /** The seven patterns, in the order they are tried. */
  datatype DatePattern = BetweenNowAnd | FromTo | DayMonthRange | DayMonth | Until | By | AfterActivity

  const DatePatterns: seq<DatePattern> := [BetweenNowAnd, FromTo, DayMonthRange, DayMonth, Until, By, AfterActivity]

  /**
   * The picks of the patterns that are not modelled here ("from X to Y",
   * "12 Mar - 14 Mar", "12 Mar", and a date after Records/Shoot/Filming/
   * Casting), for a text: `None` when the pattern does not match.
   */
  type PatternPicks = (DatePattern, string) -> Option<string>

  /** `p.pick(normalized.match(p.rx))` for pattern `p`, `None` when it does not match. */
  function Pick(p: DatePattern, s: string, picks: PatternPicks): Option<string> {
    match p
    case BetweenNowAnd => FindBetweenNowAnd(s, 0)
    case Until => WordThenLazy(s, "until", 0)
    case By => WordThenLazy(s, "by", 0)
    case _ => picks(p, s)
  }

  /** `.replace(/\.$/, "").trim()` */
  function Extracted(pick: string): (r: string)
    ensures r == Trim(r)
  {
    var d := if pick != [] && pick[|pick| - 1] == '.' then pick[..|pick| - 1] else pick;
    TrimIdempotent(d);
    Trim(d)
  }

  /** What each pattern, in order, gives on the normalised text. */
  function Matches(s: string, picks: PatternPicks): (ms: seq<Option<string>>)
    ensures |ms| == |DatePatterns|
    ensures forall k :: 0 <= k < |ms| ==> ms[k] == Pick(DatePatterns[k], s, picks)
  {
    seq(|DatePatterns|, k requires 0 <= k < |DatePatterns| => Pick(DatePatterns[k], s, picks))
  }

  /** The extraction of the first match, from `k` on, that leaves something; "N/A" when none does. */
  function FirstExtraction(ms: seq<Option<string>>, k: nat): (d: string)
    requires k <= |ms|
    ensures d != ""
    decreases |ms| - k
  {
    if k == |ms| then "N/A"
    else match ms[k]
      case Some(m) => if Extracted(m) != "" then Extracted(m) else FirstExtraction(ms, k + 1)
      case None => FirstExtraction(ms, k + 1)
  }

  /** The shoot date of a chosen text: the first pattern that gives a non-empty extraction wins. */
  function ShootDate(chosen: string, picks: PatternPicks): (d: string)
    ensures d != ""
    ensures d == "N/A" || d == Trim(d)
  {
    var ms := Matches(ReplaceDashes(chosen), picks);
    FirstExtractionIsAMatch(ms, 0);
    FirstExtraction(ms, 0)
  }

  /**
   * A shoot date other than "N/A" is the extraction of a match, and every
   * earlier pattern failed to match or left nothing.
   */
  lemma {:induction false} FirstExtractionIsAMatch(ms: seq<Option<string>>, k: nat)
    requires k <= |ms|
    ensures var d := FirstExtraction(ms, k);
      d == "N/A" || exists j: nat :: FirstMatchAt(ms, k, j) && d == Extracted(ms[j].value)
    ensures var d := FirstExtraction(ms, k);
      d == "N/A" || d == Trim(d)
    decreases |ms| - k
  {
    if k < |ms| {
      FirstExtractionIsAMatch(ms, k + 1);
      var d := FirstExtraction(ms, k);
      if ms[k].Some? && Extracted(ms[k].value) != "" {
        assert FirstMatchAt(ms, k, k);
      } else {
        var d' := FirstExtraction(ms, k + 1);
        assert d == d';
        if d' != "N/A" {
          var j: nat :| FirstMatchAt(ms, k + 1, j) && d' == Extracted(ms[j].value);
          forall i | k <= i < j ensures ms[i].None? || Extracted(ms[i].value) == "" {
            if i != k {
              assert k + 1 <= i < j;
            }
          }
          assert FirstMatchAt(ms, k, j);
        }
      }
    }
  }

  /** `ms[j]` is a match that leaves something, and none of `ms[k..j]` is. */
  ghost predicate FirstMatchAt(ms: seq<Option<string>>, k: nat, j: nat) {
    k <= j < |ms| && ms[j].Some? && Extracted(ms[j].value) != ""
    && forall i :: k <= i < j ==> ms[i].None? || Extracted(ms[i].value) == ""
  }

  /** The pattern loop: the first non-empty extraction becomes the shoot date and ends the loop. */
  method ReadShootDate(chosen: string, picks: PatternPicks) returns (shootDate: string)
    ensures shootDate == ShootDate(chosen, picks)
  {
    var normalized := ReplaceDashes(chosen);
    ghost var ms := Matches(normalized, picks);
    shootDate := "N/A";
    for k := 0 to |DatePatterns|
      invariant FirstExtraction(ms, 0) == FirstExtraction(ms, k)
    {
      var m := Pick(DatePatterns[k], normalized, picks);
      assert m == ms[k];
      if m.Some? {
        var extracted := Extracted(m.value);
        if extracted != "" {
          shootDate := extracted;
          return;
        }
      }
    }
  }

  /** None of the four patterns tried before "until" matches. */
  predicate EarlierPatternsFail(s: string, picks: PatternPicks) {
    FindBetweenNowAnd(s, 0).None? && picks(FromTo, s) == None && picks(DayMonthRange, s) == None && picks(DayMonth, s) == None
  }

  /** "until <d>." reads as shoot date `d` when the earlier patterns give nothing. */
  lemma UntilRead(d: string, picks: PatternPicks)
    requires d != [] && d == Trim(d)
    requires forall k :: 0 <= k < |d| ==> d[k] != '.' && d[k] != ',' && !IsLineTerminator(d[k]) && !IsDash(d[k])
    requires EarlierPatternsFail("until " + d + ".", picks)
    ensures ShootDate("until " + d + ".", picks) == d
  {
    var s := "until " + d + ".";
    UntilTextUnchanged(d);
    UntilPick(d);
    ShootDateFromUntil(s, d, picks);
  }

  lemma UntilTextUnchanged(d: string)
    requires forall k :: 0 <= k < |d| ==> !IsDash(d[k])
    ensures ReplaceDashes("until " + d + ".") == "until " + d + "."
  {
    NoDashUnchanged(d);
    AsciiUnchanged("until ");
    AsciiUnchanged(".");
    ReplaceDashesConcat("until ", d);
    ReplaceDashesConcat("until " + d, ".");
  }

  lemma ReplaceDashesConcat(a: string, b: string)
    ensures ReplaceDashes(a + b) == ReplaceDashes(a) + ReplaceDashes(b)
  {
  }

  /** Text below U+0080 has no dash to replace. */
  lemma AsciiUnchanged(s: string)
    requires forall k :: 0 <= k < |s| ==> s[k] < '\U{0080}'
    ensures ReplaceDashes(s) == s
  {
  }

  lemma NoDashUnchanged(s: string)
    requires forall k :: 0 <= k < |s| ==> !IsDash(s[k])
    ensures ReplaceDashes(s) == s
  {
  }

  /** When only the "until" pattern gives a pick, the shoot date is that pick, cleaned. */
  lemma ShootDateFromUntil(s: string, d: string, picks: PatternPicks)
    requires d != [] && d == Trim(d) && d[|d| - 1] != '.'
    requires EarlierPatternsFail(s, picks)
    requires WordThenLazy(s, "until", 0) == Some(d)
    ensures FirstExtraction(Matches(s, picks), 0) == d
  {
    EarlierMatchesNone(s, picks);
    UntilMatch(s, picks);
    ExtractedClean(d);
    FifthMatchWins(Matches(s, picks), d);
  }

  /** The fifth pattern is "until". */
  lemma UntilMatch(s: string, picks: PatternPicks)
    ensures Matches(s, picks)[4] == WordThenLazy(s, "until", 0)
  {
    assert DatePatterns[4] == Until;
  }

  /** A trimmed pick with no final `.` is extracted as it is. */
  lemma ExtractedClean(d: string)
    requires d != [] && d == Trim(d) && d[|d| - 1] != '.'
    ensures Extracted(d) == d
  {
    TrimIdempotent(d);
  }

  /** When the first four patterns give nothing and the fifth gives a clean `d`, the shoot date is `d`. */
  lemma FifthMatchWins(ms: seq<Option<string>>, d: string)
    requires |ms| >= 5 && ms[0] == None && ms[1] == None && ms[2] == None && ms[3] == None
    requires ms[4] == Some(d) && d != "" && Extracted(d) == d
    ensures FirstExtraction(ms, 0) == d
  {
    assert FirstExtraction(ms, 4) == d;
    assert FirstExtraction(ms, 3) == d;
    assert FirstExtraction(ms, 2) == d;
    assert FirstExtraction(ms, 1) == d;
  }

  lemma EarlierMatchesNone(s: string, picks: PatternPicks)
    requires EarlierPatternsFail(s, picks)
    ensures var ms := Matches(s, picks); ms[0] == None && ms[1] == None && ms[2] == None && ms[3] == None
  {
  }

  lemma UntilPick(d: string)
    requires d != [] && d == Trim(d)
    requires forall k :: 0 <= k < |d| ==> d[k] != '.' && d[k] != ',' && !IsLineTerminator(d[k])
    ensures WordThenLazy("until " + d + ".", "until", 0) == Some(d)
  {
    var s := "until " + d + ".";
    UntilAtStart(d);
    UntilLazy(d);
  }

  lemma UntilAtStart(d: string)
    ensures OccursAt(ToLower("until " + d + "."), "until", 0)
  {
    assert ToLower("until " + d + ".")[..5] == "until";
  }

  lemma UntilLazy(d: string)
    requires d != [] && d == Trim(d)
    requires forall k :: 0 <= k < |d| ==> d[k] != '.' && d[k] != ',' && !IsLineTerminator(d[k])
    ensures LazyToStop("until " + d + ".", 5) == Some(d)
  {
    var s := "until " + d + ".";
    assert !IsSpace(s[6]) by { assert s[6] == d[0]; }
    RunEndAt(s, 5, 6, IsSpace);
    assert forall k :: 6 <= k < |s| - 1 ==> s[k] == d[k - 6];
    StopAtFirst(s, 7, |s| - 1);
    assert s[6..|s| - 1] == d;
  }

  lemma {:induction false} StopAtFirst(s: string, i: nat, e: nat)
    requires i <= e < |s| && (s[e] == '.' || s[e] == ',')
    requires forall k :: i <= k < e ==> s[k] != '.' && s[k] != ','
    ensures StopAt(s, i) == e
    decreases e - i
  {
    if i < e {
      StopAtFirst(s, i + 1, e);
    }
  }

  // ---------- the shoot location ----------

  /** `[a-zA-Z0-9 ,\-()]` */
  predicate PhraseChar(c: char) { IsLetter(c) || IsDigit(c) || c == ' ' || c == ',' || c == '-' || c == '(' || c == ')' }

  /**
   * `/\b(?:in|at|near|around)\s+([A-Z][a-zA-Z0-9 ,\-()]+)/i` at `i`: the
   * capture starts with a letter right after the spaces and takes every
   * phrase character after it.
   */
  function PlacePhraseAt(s: string, i: nat): (r: Option<string>)
    requires i <= |s|
    ensures r.Some? ==> |r.value| >= 2 && IsLetter(r.value[0])
    ensures r.Some? ==> forall k :: 0 <= k < |r.value| ==> PhraseChar(r.value[k])
  {
    if !BoundaryBefore(s, i) then None
    else match LabelAt(ToLower(s), i, ["in", "at", "near", "around"])
      case None => None
      case Some(j) =>
        var k := SpaceEnd(s, j);
        if k == j || k + 1 >= |s| || !IsLetter(s[k]) || !PhraseChar(s[k + 1]) then None
        else Some(s[k..RunEnd(s, k + 1, PhraseChar)])
  }

  function PlacePhraseScan(s: string): nat -> Option<string> {
    (i: nat) => if i <= |s| then PlacePhraseAt(s, i) else None
  }

  /** The capture of the leftmost place phrase at or after `from`. */
  function FindPlacePhrase(s: string, from: nat): (r: Option<string>)
    requires from <= |s|
    ensures r.Some? ==>
      exists i :: from <= i <= |s| && PlacePhraseAt(s, i) == r &&
        forall j :: from <= j < i ==> PlacePhraseAt(s, j).None?
    ensures r.None? ==> forall i :: from <= i <= |s| ==> PlacePhraseAt(s, i).None?
    ensures r.Some? ==> |r.value| >= 2 && IsLetter(r.value[0])
    ensures r.Some? ==> forall k :: 0 <= k < |r.value| ==> PhraseChar(r.value[k])
  {
    var scan := PlacePhraseScan(s);
    assert forall i: nat :: i <= |s| ==> scan(i) == PlacePhraseAt(s, i);
    Leftmost(scan, from, |s|)
  }

  /**
   * The shoot location: the page's location, or "N/A" when it is empty;
   * when that is "N/A", the place phrase of the chosen text, normalised.
   */
  function ShootLocation(location: string, chosen: string): (r: string)
    ensures location != "" && location != "N/A" ==> r == location
    ensures (location == "" || location == "N/A") && chosen != "" && FindPlacePhrase(chosen, 0).Some? ==>
      r == Norm(FindPlacePhrase(chosen, 0).value)
    ensures (location == "" || location == "N/A") && (chosen == "" || FindPlacePhrase(chosen, 0).None?) ==> r == "N/A"
    ensures r != ""
  {
    var start := OrElse(location, "N/A");
    if start == "N/A" && chosen != "" then
      match FindPlacePhrase(chosen, 0)
      case Some(c) =>
        assert !AllSpace(c) by { assert !IsSpace(c[0]); }
        Norm(c)
      case None => start
    else start
  }

  /** Without a location, the text "in <place>" gives the place, for a place that `norm` leaves as it is. */
  lemma ShootLocationFromPhrase(place: string)
    requires |place| >= 2 && IsLetter(place[0]) && Normalized(place)
    requires forall k :: 0 <= k < |place| ==> PhraseChar(place[k])
    ensures ShootLocation("N/A", "in " + place) == place
  {
    PlaceAfterIn(place);
    PlacePhraseAtStart("in " + place);
    NormOfNormalized(place);
  }

  /** "in " followed by a phrase that starts with a letter captures that phrase at 0. */
  lemma PlaceAfterIn(place: string)
    requires |place| >= 2 && IsLetter(place[0])
    requires forall k :: 0 <= k < |place| ==> PhraseChar(place[k])
    ensures PlacePhraseAt("in " + place, 0) == Some(place)
  {
    var s := "in " + place;
    assert ToLower(s)[0..2] == "in";
    assert LabelAt(ToLower(s), 0, ["in", "at", "near", "around"]) == Some(2);
    assert s[3] == place[0] && s[4] == place[1];
    RunEndAt(s, 2, 3, IsSpace);
    RunEndAt(s, 4, |s|, PhraseChar);
    assert s[3..|s|] == place;
  }

  /** A place phrase at the very start is the leftmost one. */
  lemma PlacePhraseAtStart(s: string)
    requires PlacePhraseAt(s, 0).Some?
    ensures FindPlacePhrase(s, 0) == PlacePhraseAt(s, 0)
  {
    var r := FindPlacePhrase(s, 0);
    var i :| 0 <= i <= |s| && PlacePhraseAt(s, i) == r && forall j :: 0 <= j < i ==> PlacePhraseAt(s, j).None?;
    assert i == 0;
  }
}
