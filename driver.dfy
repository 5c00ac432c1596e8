/**
 * The page loop of the three scrapers. Backstage (scraper.js) and Mandy
 * (mandyscraper.js) keep `currentPage`, `stopped` and `isAborted` in
 * variables that the loop and the interrupt handler update: the loop runs
 * while the page is within range and nothing stopped it, sends each page's
 * records to the webhook unless there are none, and moves to the next page
 * whether the page succeeded or failed. StarNow (starnow.js) counts through
 * its pages with a plain `for` loop and has no interrupt handler.
 *
 * A page's outcome is a parameter: `scrape(p)` is None when page `p` fails
 * (the error is caught and logged), and otherwise the records of its
 * listings. `interrupt(p)` says whether the interrupt arrives while page
 * `p` is being scraped; the handler then cleans up and ends the process, so
 * that page's records are never sent.
 */
module Pagination {
  import opened Wrappers

  const BackstagePages: nat := 458
  const MandyPages: nat := 103
  const StarNowPages: nat := 103

  /** `sendWebhook`: an empty batch is logged and not sent; any other batch is posted. */
  function AfterSend<R>(sent: seq<seq<R>>, data: seq<R>): seq<seq<R>> {
    if data == [] then sent else sent + [data]
  }

  /** The batches that pages `from` up to `upto` (excluded) send, in page order. */
  function Batches<R>(from: nat, upto: nat, scrape: nat -> Option<seq<R>>): seq<seq<R>>
    decreases upto
  {
    if upto <= from then []
    else
      var before := Batches(from, upto - 1, scrape);
      match scrape(upto - 1)
      case None => before
      case Some(data) => AfterSend(before, data)
  }

  /** Every batch sent is non-empty, and a page sends at most one. */
  lemma {:induction false} BatchesNonEmpty<R>(from: nat, upto: nat, scrape: nat -> Option<seq<R>>)
    ensures forall k :: 0 <= k < |Batches(from, upto, scrape)| ==> Batches(from, upto, scrape)[k] != []
    ensures from <= upto ==> |Batches(from, upto, scrape)| <= upto - from
    decreases upto
  {
    if upto > from {
      BatchesNonEmpty(from, upto - 1, scrape);
    }
  }

  /** Each batch sent is the whole, non-empty result of one successful page. */
  lemma {:induction false} BatchesFromPages<R>(from: nat, upto: nat, scrape: nat -> Option<seq<R>>)
    ensures forall b :: b in Batches(from, upto, scrape) ==> exists p :: from <= p < upto && scrape(p) == Some(b)
    decreases upto
  {
    if upto > from {
      BatchesFromPages(from, upto - 1, scrape);
      var before := Batches(from, upto - 1, scrape);
      forall b | b in Batches(from, upto, scrape) ensures exists p :: from <= p < upto && scrape(p) == Some(b) {
        if b in before {
          var p :| from <= p < upto - 1 && scrape(p) == Some(b);
        } else {
          assert scrape(upto - 1) == Some(b);
        }
      }
    }
  }

  /** A successful page with records sends them; every other page sends nothing. */
  lemma BatchesStep<R>(from: nat, p: nat, scrape: nat -> Option<seq<R>>)
    requires from <= p
    ensures scrape(p).Some? && scrape(p).value != [] ==> Batches(from, p + 1, scrape) == Batches(from, p, scrape) + [scrape(p).value]
    ensures scrape(p).None? || scrape(p).value == [] ==> Batches(from, p + 1, scrape) == Batches(from, p, scrape)
  {
  }

  /** The first page in `from..total` at which the interrupt arrives, or `total + 1` when none does. */
  function FirstInterrupt(interrupt: nat -> bool, from: nat, total: nat): (m: nat)
    requires from <= total + 1
    ensures from <= m <= total + 1
    ensures forall p :: from <= p < m ==> !interrupt(p)
    ensures m <= total ==> interrupt(m)
    decreases total + 1 - from
  {
    if from > total then total + 1
    else if interrupt(from) then from
    else FirstInterrupt(interrupt, from + 1, total)
  }

  /** The first interrupted page is the only page with the three properties above. */
  lemma {:induction false} FirstInterruptUnique(interrupt: nat -> bool, from: nat, total: nat, m: nat)
    requires from <= m <= total + 1
    requires forall p :: from <= p < m ==> !interrupt(p)
    requires m <= total ==> interrupt(m)
    ensures FirstInterrupt(interrupt, from, total) == m
    decreases total + 1 - from
  {
    if from <= total && from < m {
      FirstInterruptUnique(interrupt, from + 1, total, m);
    }
  }

  /**
   * The state of the Backstage or Mandy scraper: the page to scrape next,
   * the two flags the interrupt handler sets, how often the handler's
   * cleanup ran, and the batches posted to the webhook so far.
   */
  class Scraper<R> {
    const totalPages: nat
    var currentPage: nat
    var stopped: bool
    var isAborted: bool
    var cleanups: nat
    var sent: seq<seq<R>>
    /** The pages scraped so far, in order. */
    ghost var visited: seq<nat>

    /**
     * Pages 1 up to `currentPage` (excluded) were each scraped once, in
     * order; `stopped` is set exactly by the handler, whose cleanup runs at
     * most once; no batch sent is empty.
     */
    ghost predicate Valid()
      reads this
    {
      && 1 <= currentPage <= totalPages + 1
      && |visited| == currentPage - 1
      && (forall k :: 0 <= k < |visited| ==> visited[k] == k + 1)
      && stopped == isAborted
      && cleanups == (if isAborted then 1 else 0)
      && (forall k :: 0 <= k < |sent| ==> sent[k] != [])
    }

    predicate Running()
      reads this
    {
      currentPage <= totalPages && !stopped
    }

    constructor(totalPages: nat)
      ensures Valid() && Running() == (totalPages >= 1)
      ensures this.totalPages == totalPages && currentPage == 1 && !stopped && sent == []
    {
      this.totalPages := totalPages;
      currentPage := 1;
      stopped := false;
      isAborted := false;
      cleanups := 0;
      sent := [];
      visited := [];
    }

    /** `sendWebhook(pageResults)`: posts a non-empty batch, skips an empty one. */
    method SendWebhook(data: seq<R>)
      requires Valid()
      modifies this
      ensures Valid()
      ensures sent == AfterSend(old(sent), data)
      ensures currentPage == old(currentPage) && stopped == old(stopped) && isAborted == old(isAborted)
      ensures cleanups == old(cleanups) && visited == old(visited)
    {
      if |data| == 0 {
        return;
      }
      sent := sent + [data];
    }

    /** The success path of a page: its records are sent, then the page advances. */
    method FinishPage(pageResults: seq<R>)
      requires Valid() && Running()
      modifies this
      ensures Valid()
      ensures sent == AfterSend(old(sent), pageResults)
      ensures currentPage == old(currentPage) + 1 && visited == old(visited) + [old(currentPage)]
      ensures stopped == old(stopped) && isAborted == old(isAborted) && cleanups == old(cleanups)
    {
      SendWebhook(pageResults);
      visited := visited + [currentPage];
      currentPage := currentPage + 1;
    }

    /** The failure path of a page: the error is logged, nothing is sent, and the page advances. */
    method FailPage()
      requires Valid() && Running()
      modifies this
      ensures Valid()
      ensures currentPage == old(currentPage) + 1 && visited == old(visited) + [old(currentPage)]
      ensures sent == old(sent) && stopped == old(stopped) && isAborted == old(isAborted) && cleanups == old(cleanups)
    {
      visited := visited + [currentPage];
      currentPage := currentPage + 1;
    }

    /** The interrupt handler: the first call sets both flags and cleans up; later calls return at once. */
    method Abort()
      requires Valid()
      modifies this
      ensures Valid()
      ensures isAborted && stopped && cleanups == 1
      ensures old(isAborted) ==> cleanups == old(cleanups)
      ensures currentPage == old(currentPage) && sent == old(sent) && visited == old(visited)
    {
      if isAborted {
        return;
      }
      isAborted := true;
      stopped := true;
      cleanups := cleanups + 1;
    }

    /**
     * The `while` loop: pages from the current one on, until the last page
     * or the interrupt. It stops at the first interrupted page, having sent
     * the non-empty records of every page before it.
     */
    method Run(scrape: nat -> Option<seq<R>>, interrupt: nat -> bool)
      requires Valid() && !stopped
      modifies this
      ensures Valid() && !Running()
      ensures currentPage == FirstInterrupt(interrupt, old(currentPage), totalPages)
      ensures stopped <==> currentPage <= totalPages
      ensures sent == old(sent) + Batches(old(currentPage), currentPage, scrape)
    {
      ghost var start := currentPage;
      while currentPage <= totalPages && !stopped
        invariant Valid()
        invariant start <= currentPage
        invariant stopped ==> currentPage <= totalPages && interrupt(currentPage)
        invariant forall p :: start <= p < currentPage ==> !interrupt(p)
        invariant sent == old(sent) + Batches(start, currentPage, scrape)
        decreases totalPages + 1 - currentPage, if stopped then 0 else 1
      {
        if interrupt(currentPage) {
          Abort();
        } else {
          BatchesStep(start, currentPage, scrape);
          match scrape(currentPage)
          case None =>
            FailPage();
          case Some(pageResults) =>
            FinishPage(pageResults);
        }
      }
      FirstInterruptUnique(interrupt, start, totalPages, currentPage);
    }
  }

  /** A Backstage or Mandy run from the first page: every page, or every page before the interrupt, once each. */
  method RunBoard<R>(totalPages: nat, scrape: nat -> Option<seq<R>>, interrupt: nat -> bool) returns (sent: seq<seq<R>>)
    ensures var last := FirstInterrupt(interrupt, 1, totalPages);
      sent == Batches(1, last, scrape)
  {
    var scraper := new Scraper<R>(totalPages);
    scraper.Run(scrape, interrupt);
    sent := scraper.sent;
  }

  /** StarNow's `for` loop over pages 1 to `totalPages`. */
  method RunStarNow<R>(totalPages: nat, scrape: nat -> Option<seq<R>>) returns (sent: seq<seq<R>>)
    ensures sent == Batches(1, totalPages + 1, scrape)
  {
    sent := [];
    for currentPage := 1 to totalPages + 1
      invariant sent == Batches(1, currentPage, scrape)
    {
      match scrape(currentPage)
      case None =>
      case Some(pageResults) =>
        sent := AfterSend(sent, pageResults);
    }
  }

  /** The Backstage run over its 458 pages. */
  method RunBackstage<R>(scrape: nat -> Option<seq<R>>, interrupt: nat -> bool) returns (sent: seq<seq<R>>)
    ensures sent == Batches(1, FirstInterrupt(interrupt, 1, BackstagePages), scrape)
  {
    sent := RunBoard(BackstagePages, scrape, interrupt);
  }

  /** The Mandy run over its 103 pages. */
  method RunMandy<R>(scrape: nat -> Option<seq<R>>, interrupt: nat -> bool) returns (sent: seq<seq<R>>)
    ensures sent == Batches(1, FirstInterrupt(interrupt, 1, MandyPages), scrape)
  {
    sent := RunBoard(MandyPages, scrape, interrupt);
  }

  /** The StarNow run over its 103 pages. */
  method RunStarNowPages<R>(scrape: nat -> Option<seq<R>>) returns (sent: seq<seq<R>>)
    ensures sent == Batches(1, StarNowPages + 1, scrape)
  {
    sent := RunStarNow(StarNowPages, scrape);
  }

  /** Without an interrupt every page is scraped, and the run sends the same batches as StarNow's loop. */
  lemma UninterruptedRunsEveryPage(totalPages: nat, interrupt: nat -> bool)
    requires forall p :: 1 <= p <= totalPages ==> !interrupt(p)
    ensures FirstInterrupt(interrupt, 1, totalPages) == totalPages + 1
  {
    FirstInterruptUnique(interrupt, 1, totalPages, totalPages + 1);
  }
}
