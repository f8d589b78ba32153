/** The scraper's page loop (iPhone8Scrape.py, lines 30-45 and 47-155):
    consent, one pass over each page's listings with a run-wide seen set,
    and `check_next_page` deciding whether another page follows. */
module Scrape {
  import opened Wrappers
  import opened Listing
  import Price
  import opened Seqs

  /** What `check_next_page` finds. `Unavailable` covers the wait timing out
      and any lookup, scroll or click raising. */
  datatype NextControl = Enabled | Disabled | Unavailable

  /** One catalogue page: its listings, or `None` when the wait for listing
      elements timed out (the exception leaves the page loop), and the state
      of its next control. */
  datatype Page = Page(listings: Option<seq<RawListing>>, next: NextControl)

  /** How the page loop ended: the next control said there is no further
      page, or an exception escaped the loop. Either way the records
      collected so far are written. */
  datatype Status = NoMorePages | Aborted

  datatype Run = Run(records: seq<Record>, pagesScraped: nat, status: Status, seen: set<string>)

  predicate DistinctDescriptions(records: seq<Record>) {
    forall i, j :: 0 <= i < j < |records| ==> records[i].description != records[j].description
  }

  /** What the checks guarantee of every collected record. */
  predicate CheckedRecord(r: Record) {
    && Price.IsValidPrice(r.price)
    && r.price != Price.ZERO_TEXT
    && !IsBanned(r.description)
  }

  /** One listing's outcome reduced to what the page loop keeps: the record,
      if one was collected, and the updated seen set. */
  function Step(l: RawListing, seen: set<string>): (r: (Option<Record>, set<string>))
    ensures seen <= r.1
    ensures r.1 == if Admitted(l, seen) then seen + {l.description.value} else seen
    ensures r.0.Some? <==> Recordable(l, seen)
    ensures Recordable(l, seen) ==> r.0 == Some(RecordOf(l))
    ensures r.0.Some? ==>
              && CheckedRecord(r.0.value)
              && r.0.value.description in r.1
              && r.0.value.description !in seen
  {
    var (outcome, seen1) := Process(l, seen);
    if outcome.Recorded? then
      Price.NormalizeValidIdempotent(l.price.value);
      (Some(outcome.record), seen1)
    else (None, seen1)
  }

  /** `check_next_page` returns True, and the loop goes on, only for an
      enabled control. */
  predicate Continues(c: NextControl) {
    c == Enabled
  }

  /** The listings of one page in index order, each skipped or recorded. */
  function ScrapeListings(listings: seq<RawListing>, seen: set<string>): (r: (seq<Record>, set<string>))
    ensures seen <= r.1
    ensures |r.0| <= |listings|
    ensures DistinctDescriptions(r.0)
    ensures forall i :: 0 <= i < |r.0| ==> r.0[i].description in r.1 && r.0[i].description !in seen
    ensures All(r.0, CheckedRecord)
    decreases |listings|
  {
    hide *;
    if |listings| == 0 then ([], seen)
    else
      var step := Step(listings[0], seen);
      var rest := ScrapeListings(listings[1..], step.1);
      if step.0.Some? then
        ConsRecord(step.0.value, rest.0, seen, step.1, rest.1);
        ([step.0.value] + rest.0, rest.1)
      else rest
  }

  /** The seen set before the listing at index `i`: the sets the loop body
      leaves, threaded from the first listing on. */
  function SeenBefore(listings: seq<RawListing>, seen: set<string>, i: nat): set<string>
    requires i <= |listings|
    decreases i
  {
    if i == 0 then seen else Process(listings[i - 1], SeenBefore(listings, seen, i - 1)).1
  }

  /** The outcome of every listing, each met with the seen set the earlier
      listings left. */
  function Outcomes(listings: seq<RawListing>, seen: set<string>): (outs: seq<Outcome>)
    ensures |outs| == |listings|
    ensures forall i :: 0 <= i < |listings| ==> outs[i] == Process(listings[i], SeenBefore(listings, seen, i)).0
  {
    seq(|listings|, i requires 0 <= i < |listings| => Process(listings[i], SeenBefore(listings, seen, i)).0)
  }

  /** The records of the recorded outcomes, in order. */
  function RecordsIn(outs: seq<Outcome>): (records: seq<Record>)
    ensures |records| <= |outs|
    decreases |outs|
  {
    if |outs| == 0 then []
    else (if outs[0].Recorded? then [outs[0].record] else []) + RecordsIn(outs[1..])
  }

  lemma {:induction false} SeenBeforeShift(listings: seq<RawListing>, seen: set<string>, i: nat)
    requires i < |listings|
    ensures SeenBefore(listings, seen, i + 1) == SeenBefore(listings[1..], Process(listings[0], seen).1, i)
    decreases i
  {
    hide Process;
    if i > 0 {
      SeenBeforeShift(listings, seen, i - 1);
      assert listings[1..][i - 1] == listings[i];
    }
  }

  lemma OutcomesCons(listings: seq<RawListing>, seen: set<string>)
    requires |listings| > 0
    ensures Outcomes(listings, seen) == [Process(listings[0], seen).0] + Outcomes(listings[1..], Process(listings[0], seen).1)
  {
    hide *;
    var s1 := Process(listings[0], seen).1;
    var outs := Outcomes(listings, seen);
    var tail := Outcomes(listings[1..], s1);
    SeenBeforeStart(listings, seen);
    forall i | 0 <= i < |tail| ensures outs[i + 1] == tail[i] {
      SeenBeforeShift(listings, seen, i);
      assert listings[1..][i] == listings[i + 1];
    }
    assert outs == [outs[0]] + tail;
  }

  lemma NothingToScrape(seen: set<string>)
    ensures ScrapeListings([], seen) == ([], seen)
    ensures SeenBefore([], seen, 0) == seen
    ensures RecordsIn([]) == []
  {
  }

  lemma SeenBeforeStart(listings: seq<RawListing>, seen: set<string>)
    ensures SeenBefore(listings, seen, 0) == seen
  {
  }

  lemma RecordsInCons(o: Outcome, outs: seq<Outcome>)
    ensures RecordsIn([o] + outs) == (if o.Recorded? then [o.record] else []) + RecordsIn(outs)
  {
    assert ([o] + outs)[1..] == outs;
  }

  /** `Step` keeps the record of a recorded outcome and the seen set
      `Process` leaves. */
  lemma StepOfProcess(l: RawListing, seen: set<string>)
    ensures Step(l, seen).1 == Process(l, seen).1
    ensures Step(l, seen).0 == if Process(l, seen).0.Recorded? then Some(Process(l, seen).0.record) else None
  {
    hide Process, Step;
  }

  lemma ScrapeListingsCons(listings: seq<RawListing>, seen: set<string>)
    requires |listings| > 0
    ensures var step := Step(listings[0], seen);
            var rest := ScrapeListings(listings[1..], step.1);
            ScrapeListings(listings, seen) == ((if step.0.Some? then [step.0.value] else []) + rest.0, rest.1)
  {
    hide Process, Step;
    var step := Step(listings[0], seen);
    var rest := ScrapeListings(listings[1..], step.1);
    if step.0.None? {
      assert [] + rest.0 == rest.0;
    }
  }

  /** One page's pass keeps exactly the records of the recorded outcomes, in
      listing order, and leaves the seen set the last listing leaves. */
  lemma {:induction false} ScrapeListingsRecords(listings: seq<RawListing>, seen: set<string>)
    ensures ScrapeListings(listings, seen).0 == RecordsIn(Outcomes(listings, seen))
    ensures ScrapeListings(listings, seen).1 == SeenBefore(listings, seen, |listings|)
    decreases |listings|
  {
    hide *;
    if |listings| == 0 {
      NothingToScrape(seen);
    } else {
      var s1 := Process(listings[0], seen).1;
      StepOfProcess(listings[0], seen);
      ScrapeListingsCons(listings, seen);
      ScrapeListingsRecords(listings[1..], s1);
      OutcomesCons(listings, seen);
      RecordsInCons(Process(listings[0], seen).0, Outcomes(listings[1..], s1));
      SeenBeforeShift(listings, seen, |listings| - 1);
      var outs := Outcomes(listings, seen);
      assert outs[1..] == Outcomes(listings[1..], s1);
    }
  }

  /** A pass over two runs of listings is the pass over the first followed
      by the pass over the second from the seen set the first left. */
  lemma {:induction false} ScrapeListingsAppend(a: seq<RawListing>, b: seq<RawListing>, seen: set<string>)
    ensures var ra := ScrapeListings(a, seen);
            var rb := ScrapeListings(b, ra.1);
            ScrapeListings(a + b, seen) == (ra.0 + rb.0, rb.1)
    decreases |a|
  {
    hide *;
    if |a| == 0 {
      NothingToScrape(seen);
      assert a == [] && a + b == b;
      var rb := ScrapeListings(b, seen);
      assert [] + rb.0 == rb.0;
    } else {
      var step := Step(a[0], seen);
      assert (a + b)[0] == a[0];
      assert (a + b)[1..] == a[1..] + b;
      ScrapeListingsCons(a, seen);
      ScrapeListingsCons(a + b, seen);
      ScrapeListingsAppend(a[1..], b, step.1);
      var ra' := ScrapeListings(a[1..], step.1);
      var rb := ScrapeListings(b, ra'.1);
      var head := if step.0.Some? then [step.0.value] else [];
      assert head + (ra'.0 + rb.0) == (head + ra'.0) + rb.0;
    }
  }

  /** The records of one page followed by the records of the later pages,
      each new to the set the earlier ones left, keep the descriptions
      distinct. */
  lemma AppendRecords(a: seq<Record>, b: seq<Record>, seen: set<string>, seen1: set<string>, seen2: set<string>)
    requires seen <= seen1 <= seen2
    requires DistinctDescriptions(a) && All(a, CheckedRecord)
    requires forall i :: 0 <= i < |a| ==> a[i].description in seen1 && a[i].description !in seen
    requires DistinctDescriptions(b) && All(b, CheckedRecord)
    requires forall i :: 0 <= i < |b| ==> b[i].description in seen2 && b[i].description !in seen1
    ensures DistinctDescriptions(a + b) && All(a + b, CheckedRecord)
    ensures forall i :: 0 <= i < |a + b| ==> (a + b)[i].description in seen2 && (a + b)[i].description !in seen
  {
    var all := a + b;
    assert forall i :: |a| <= i < |all| ==> all[i] == b[i - |a|];
    AllAppend(a, b, CheckedRecord);
  }

  /** A record new to the seen set, in front of records new to the set
      that already holds it, keeps the descriptions distinct. */
  lemma ConsRecord(x: Record, rest: seq<Record>, seen: set<string>, seen1: set<string>, seen2: set<string>)
    requires seen <= seen1 <= seen2
    requires CheckedRecord(x) && x.description in seen1 && x.description !in seen
    requires DistinctDescriptions(rest) && All(rest, CheckedRecord)
    requires forall i :: 0 <= i < |rest| ==> rest[i].description in seen2 && rest[i].description !in seen1
    ensures DistinctDescriptions([x] + rest) && All([x] + rest, CheckedRecord)
    ensures forall i :: 0 <= i < |[x] + rest| ==> ([x] + rest)[i].description in seen2 && ([x] + rest)[i].description !in seen
  {
    var all := [x] + rest;
    assert all[1..] == rest;
    assert forall i :: 0 < i < |all| ==> all[i] == rest[i - 1];
  }

  /** Pages in order until the next control stops the loop or an exception
      escapes it. Running out of supplied pages while the control is enabled
      means the next page never showed listings: the run aborts. */
  function ScrapePages(pages: seq<Page>, seen: set<string>): (r: Run)
    ensures seen <= r.seen
    ensures r.pagesScraped <= |pages|
    ensures DistinctDescriptions(r.records)
    ensures forall i :: 0 <= i < |r.records| ==>
              r.records[i].description in r.seen && r.records[i].description !in seen
    ensures All(r.records, CheckedRecord)
    decreases |pages|
  {
    hide *;
    if |pages| == 0 then Run([], 0, Aborted, seen)
    else
      match pages[0].listings
      case None => Run([], 0, Aborted, seen)
      case Some(listings) =>
        var page := ScrapeListings(listings, seen);
        if Continues(pages[0].next) then
          var rest := ScrapePages(pages[1..], page.1);
          AppendRecords(page.0, rest.records, seen, page.1, rest.seen);
          Run(page.0 + rest.records, rest.pagesScraped + 1, rest.status, rest.seen)
        else Run(page.0, 1, NoMorePages, page.1)
  }

  /** The listings of the first `n` pages, one page after the other. */
  function ListingsUpTo(pages: seq<Page>, n: nat): seq<RawListing>
    requires n <= |pages|
    requires forall i :: 0 <= i < n ==> pages[i].listings.Some?
    decreases n
  {
    if n == 0 then [] else pages[0].listings.value + ListingsUpTo(pages[1..], n - 1)
  }

  lemma ListingsUpToUnfold(pages: seq<Page>, n: nat)
    requires n <= |pages|
    requires forall i :: 0 <= i < n ==> pages[i].listings.Some?
    ensures n == 0 ==> ListingsUpTo(pages, n) == []
    ensures n > 0 ==> ListingsUpTo(pages, n) == pages[0].listings.value + ListingsUpTo(pages[1..], n - 1)
  {
  }

  /** The page loop's three ways through one page. */
  lemma ScrapePagesUnfold(pages: seq<Page>, seen: set<string>)
    ensures |pages| == 0 || pages[0].listings.None? ==> ScrapePages(pages, seen) == Run([], 0, Aborted, seen)
    ensures |pages| > 0 && pages[0].listings.Some? && !Continues(pages[0].next) ==>
              var page := ScrapeListings(pages[0].listings.value, seen);
              ScrapePages(pages, seen) == Run(page.0, 1, NoMorePages, page.1)
    ensures |pages| > 0 && pages[0].listings.Some? && Continues(pages[0].next) ==>
              var page := ScrapeListings(pages[0].listings.value, seen);
              var rest := ScrapePages(pages[1..], page.1);
              ScrapePages(pages, seen) == Run(page.0 + rest.records, rest.pagesScraped + 1, rest.status, rest.seen)
  {
    hide ScrapeListings, Process, Step;
  }

  /** Where the page loop stops: every scraped page showed its listings and
      every scraped page but the last had an enabled control; the run ends
      normally exactly when the last scraped page's control is not enabled,
      and otherwise the next page never showed listings or there was none. */
  lemma {:induction false} ScrapePagesStops(pages: seq<Page>, seen: set<string>)
    ensures var r := ScrapePages(pages, seen);
            && (forall i :: 0 <= i < r.pagesScraped ==> pages[i].listings.Some?)
            && (forall i :: 0 <= i < r.pagesScraped - 1 ==> pages[i].next == Enabled)
            && (r.status == NoMorePages <==> r.pagesScraped > 0 && pages[r.pagesScraped - 1].next != Enabled)
            && (r.status == Aborted ==> r.pagesScraped == |pages| || pages[r.pagesScraped].listings.None?)
    decreases |pages|
  {
    hide ScrapePages, ScrapeListings, Process, Step;
    ScrapePagesUnfold(pages, seen);
    if |pages| > 0 && pages[0].listings.Some? && Continues(pages[0].next) {
      var page := ScrapeListings(pages[0].listings.value, seen);
      ScrapePagesStops(pages[1..], page.1);
      var rest := ScrapePages(pages[1..], page.1);
      assert forall i :: 0 < i < |pages| ==> pages[i] == pages[1..][i - 1];
      if rest.pagesScraped > 0 {
        assert pages[rest.pagesScraped] == pages[1..][rest.pagesScraped - 1];
      }
    }
  }

  /** The page loop is one pass over the listings of the pages it scraped:
      the seen set runs on from page to page. */
  lemma {:induction false} ScrapePagesIsOnePass(pages: seq<Page>, seen: set<string>)
    ensures var r := ScrapePages(pages, seen);
            && (forall i :: 0 <= i < r.pagesScraped ==> pages[i].listings.Some?)
            && r.records == ScrapeListings(ListingsUpTo(pages, r.pagesScraped), seen).0
            && r.seen == ScrapeListings(ListingsUpTo(pages, r.pagesScraped), seen).1
    decreases |pages|
  {
    hide *;
    ScrapePagesStops(pages, seen);
    ScrapePagesUnfold(pages, seen);
    var r := ScrapePages(pages, seen);
    ListingsUpToUnfold(pages, r.pagesScraped);
    if |pages| > 0 && pages[0].listings.Some? {
      var listings := pages[0].listings.value;
      var page := ScrapeListings(listings, seen);
      if Continues(pages[0].next) {
        ScrapePagesIsOnePass(pages[1..], page.1);
        var rest := ScrapePages(pages[1..], page.1);
        ScrapeListingsAppend(listings, ListingsUpTo(pages[1..], rest.pagesScraped), seen);
      } else {
        ListingsUpToUnfold(pages[1..], 0);
        assert listings + [] == listings;
      }
    } else {
      NothingToScrape(seen);
    }
  }

  /** A whole run: dismiss the consent overlay, then scrape from an empty
      seen set. If the overlay cannot be dismissed nothing is scraped. */
  function ScrapeRun(consentDismissed: bool, pages: seq<Page>): (r: Run)
    ensures !consentDismissed ==> r.records == [] && r.status == Aborted
    ensures DistinctDescriptions(r.records)
    ensures All(r.records, CheckedRecord)
  {
    if consentDismissed then ScrapePages(pages, {}) else Run([], 0, Aborted, {})
  }

  /** A run past the consent overlay collects, in order, the record of
      every listing on the pages it scraped that `Process` records, each
      listing met with the descriptions the earlier listings of the run
      admitted. */
  lemma ScrapeRunCollects(pages: seq<Page>)
    ensures var r := ScrapeRun(true, pages);
            && (forall i :: 0 <= i < r.pagesScraped ==> pages[i].listings.Some?)
            && r.records == RecordsIn(Outcomes(ListingsUpTo(pages, r.pagesScraped), {}))
  {
    var r := ScrapeRun(true, pages);
    ScrapePagesIsOnePass(pages, {});
    ScrapeListingsRecords(ListingsUpTo(pages, r.pagesScraped), {});
  }

  /** With N pages whose listings all load, the first N - 1 controls enabled
      and the N-th one not, exactly N pages are scraped and the run ends
      normally. */
  lemma {:induction false} PaginationStopsAtLastPage(pages: seq<Page>, n: nat, seen: set<string>)
    requires 1 <= n <= |pages|
    requires forall i :: 0 <= i < n ==> pages[i].listings.Some?
    requires forall i :: 0 <= i < n - 1 ==> pages[i].next == Enabled
    requires pages[n - 1].next != Enabled
    ensures ScrapePages(pages, seen).pagesScraped == n
    ensures ScrapePages(pages, seen).status == NoMorePages
    decreases n
  {
    var seen1 := ScrapeListings(pages[0].listings.value, seen).1;
    if n > 1 {
      PaginationStopsAtLastPage(pages[1..], n - 1, seen1);
    }
  }

  /** A page whose listings never load aborts the run, and the records of the
      pages before it are kept. */
  lemma {:induction false} AbortKeepsEarlierRecords(pages: seq<Page>, seen: set<string>)
    requires |pages| >= 2
    requires pages[0].listings.Some? && pages[0].next == Enabled
    requires pages[1].listings.None?
    ensures ScrapePages(pages, seen).status == Aborted
    ensures ScrapePages(pages, seen).pagesScraped == 1
    ensures ScrapePages(pages, seen).records == ScrapeListings(pages[0].listings.value, seen).0
  {
    var seen1 := ScrapeListings(pages[0].listings.value, seen).1;
    assert ScrapePages(pages[1..], seen1) == Run([], 0, Aborted, seen1);
  }
}
