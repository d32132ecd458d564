/**
 * The listing-collection loop of `get_ebay_data` (data.py:68-111), over an
 * abstract site: the results pages the browser would show one after the
 * other, each with its listing nodes and the outcome of the next-page step.
 */
module Collector {
  import opened Options
  import Price

  /** The loop scrapes page numbers 1 to MaxPages at most (data.py:76). */
  const MaxPages: nat := 30

  /** The seller text recorded for a listing node without subtitle (data.py:101). */
  const NotProvided: seq<char> := "Not provided"

  /** One listing node: its title, its price text and its subtitle, when the node has one. */
  datatype Entry = Entry(title: seq<char>, priceText: seq<char>, subtitle: Option<seq<char>>)

  /**
   * One results page: its listing nodes, whether the next-page control is
   * found on it, and whether clicking that control succeeds.
   */
  datatype Page = Page(entries: seq<Entry>, nextFound: bool, clickOk: bool)

  /** The record appended for one listing node (data.py:92-101). */
  datatype Record = Record(title: seq<char>, price: seq<char>, seller: seq<char>)

  /** The next-page step of a page succeeds: the control is found and clicking it works. */
  predicate Advances(p: Page) {
    p.nextFound && p.clickOk
  }

  /**
   * The pages a browser session shows, in order: page k + 1 exists whenever
   * page k (k < MaxPages) advances; the first results page always exists.
   */
  predicate Site(pages: seq<Page>) {
    |pages| > 0 && (|pages| >= MaxPages || !Advances(pages[|pages| - 1]))
  }

  /** The record of one listing node: the price text without its first four characters, the sentinel for no subtitle. */
  function ToRecord(e: Entry): (rec: Record)
    ensures rec.title == e.title
    ensures |e.priceText| >= 4 ==> e.priceText == e.priceText[..4] + rec.price
    ensures |e.priceText| < 4 ==> rec.price == []
    ensures e.subtitle.None? ==> rec.seller == NotProvided
    ensures e.subtitle.Some? ==> rec.seller == e.subtitle.value
  {
    Record(
      e.title,
      Price.StripCurrencyPrefix(e.priceText),
      match e.subtitle
      case None => NotProvided
      case Some(t) => t)
  }

  /** The records of a page's listing nodes, in the order of the nodes. */
  function EntryRecords(entries: seq<Entry>): (rs: seq<Record>)
    ensures |rs| == |entries|
    ensures forall j :: 0 <= j < |entries| ==> rs[j] == ToRecord(entries[j])
  {
    seq(|entries|, j requires 0 <= j < |entries| => ToRecord(entries[j]))
  }

  /**
   * The records of a run of pages: page by page, and within a page node by
   * node; one record per listing node, none dropped and none added.
   */
  function PageRecords(pages: seq<Page>): (rs: seq<Record>)
    ensures |rs| == TotalEntries(pages)
  {
    if pages == [] then []
    else PageRecords(pages[..|pages| - 1]) + EntryRecords(pages[|pages| - 1].entries)
  }

  /** The number of listing nodes on a run of pages. */
  function TotalEntries(pages: seq<Page>): nat {
    if pages == [] then 0
    else TotalEntries(pages[..|pages| - 1]) + |pages[|pages| - 1].entries|
  }

  // ---------------------------------------------------------------------------
  // How many pages the loop scrapes
  // ---------------------------------------------------------------------------

  /**
   * Scraping from page number k on: page k is scraped, and the loop goes on
   * to page k + 1 while the cap allows and page k's next-page step succeeds.
   */
  function ScrapedFrom(pages: seq<Page>, k: nat): (n: nat)
    requires Site(pages)
    requires 1 <= k <= MaxPages && k <= |pages|
    requires forall i :: 0 <= i < k - 1 ==> Advances(pages[i])
    ensures k <= n <= MaxPages && n <= |pages|
    ensures forall i :: 0 <= i < n - 1 ==> Advances(pages[i])
    ensures n < MaxPages ==> !Advances(pages[n - 1])
    decreases MaxPages - k
  {
    if k < MaxPages && Advances(pages[k - 1]) then ScrapedFrom(pages, k + 1) else k
  }

  /**
   * The number of pages the loop scrapes: at least one, at most MaxPages;
   * every page before the last advanced, and the last one is either page
   * MaxPages or the first page whose next-page step failed.
   */
  function PagesScraped(pages: seq<Page>): (n: nat)
    requires Site(pages)
    ensures 1 <= n <= MaxPages && n <= |pages|
    ensures forall i :: 0 <= i < n - 1 ==> Advances(pages[i])
    ensures n < MaxPages ==> !Advances(pages[n - 1])
  {
    ScrapedFrom(pages, 1)
  }

  /** The three properties of PagesScraped single out one number. */
  lemma PagesScrapedUnique(pages: seq<Page>, n: nat)
    requires Site(pages)
    requires 1 <= n <= MaxPages && n <= |pages|
    requires forall i :: 0 <= i < n - 1 ==> Advances(pages[i])
    requires n < MaxPages ==> !Advances(pages[n - 1])
    ensures n == PagesScraped(pages)
  {
  }

  // ---------------------------------------------------------------------------
  // The loop
  // ---------------------------------------------------------------------------

  /**
   * data.py:69-111. `page` counts from 1; `morePages` drops to false when the
   * next-page control is not found, and when the step to the next page fails
   * (a click on a missing or stale control raises as well). Every listing
   * node of every scraped page is appended, in order, before the step.
   */
  method CollectListings(pages: seq<Page>) returns (data: seq<Record>, scraped: nat)
    requires Site(pages)
    ensures scraped == PagesScraped(pages)
    ensures data == PageRecords(pages[..scraped])
  {
    data := [];
    var page := 1;
    var morePages := true;
    while page <= MaxPages && morePages
      invariant 1 <= page <= MaxPages + 1 && page - 1 <= |pages|
      invariant morePages ==> page <= |pages| || page == MaxPages + 1
      invariant forall i :: 0 <= i < page - 2 ==> Advances(pages[i])
      invariant morePages && page > 1 ==> Advances(pages[page - 2])
      invariant !morePages ==> page > 1 && !Advances(pages[page - 2])
      invariant data == PageRecords(pages[..page - 1])
      decreases MaxPages + 1 - page
    {
      var current := pages[page - 1];
      if !current.nextFound {
        morePages := false;
      }
      ghost var before := data;
      var j := 0;
      while j < |current.entries|
        invariant j <= |current.entries|
        invariant data == before + EntryRecords(current.entries[..j])
      {
        data := data + [ToRecord(current.entries[j])];
        j := j + 1;
        assert EntryRecords(current.entries[..j]) == EntryRecords(current.entries[..j - 1]) + [ToRecord(current.entries[j - 1])];
      }
      assert current.entries[..j] == current.entries;
      assert pages[..page][..page - 1] == pages[..page - 1];
      page := page + 1;
      if !current.nextFound || !current.clickOk {
        morePages := false;
      }
    }
    scraped := page - 1;
    PagesScrapedUnique(pages, scraped);
  }

  // ---------------------------------------------------------------------------
  // Properties of the collected records
  // ---------------------------------------------------------------------------

  /** The records of consecutive runs of pages follow each other. */
  lemma {:induction false} PageRecordsConcat(a: seq<Page>, b: seq<Page>)
    ensures PageRecords(a + b) == PageRecords(a) + PageRecords(b)
    ensures TotalEntries(a + b) == TotalEntries(a) + TotalEntries(b)
    decreases |b|
  {
    if b == [] {
      assert a + b == a;
    } else {
      var b' := b[..|b| - 1];
      var e := EntryRecords(b[|b| - 1].entries);
      assert (a + b)[..|a + b| - 1] == a + b';
      assert (a + b)[|a + b| - 1] == b[|b| - 1];
      PageRecordsConcat(a, b');
      calc {
        PageRecords(a + b);
        PageRecords(a + b') + e;
        (PageRecords(a) + PageRecords(b')) + e;
        PageRecords(a) + (PageRecords(b') + e);
        PageRecords(a) + PageRecords(b);
      }
    }
  }

  /**
   * Page-then-node order: the record of node j of page k stands after all
   * records of the pages before k and after the first j records of page k.
   */
  lemma RecordPosition(pages: seq<Page>, k: nat, j: nat)
    requires k < |pages| && j < |pages[k].entries|
    ensures TotalEntries(pages[..k]) + j < |PageRecords(pages)|
    ensures PageRecords(pages)[TotalEntries(pages[..k]) + j] == ToRecord(pages[k].entries[j])
  {
    var front := pages[..k + 1];
    assert pages == front + pages[k + 1..];
    PageRecordsConcat(front, pages[k + 1..]);
    assert front[..k] == pages[..k];
    assert PageRecords(front) == PageRecords(pages[..k]) + EntryRecords(pages[k].entries);
  }

  /** No deduplication: a page shown twice contributes its records twice. */
  lemma RepeatedPageRepeatsRecords(p: Page)
    ensures PageRecords([p, p]) == EntryRecords(p.entries) + EntryRecords(p.entries)
  {
    assert [p, p][..1] == [p];
    assert [p][..0] == [];
    assert PageRecords([p]) == EntryRecords(p.entries);
  }

  /** The cap: a site whose pages all advance is scraped for exactly MaxPages pages. */
  lemma CapReached(pages: seq<Page>)
    requires |pages| >= MaxPages
    requires forall i :: 0 <= i < |pages| ==> Advances(pages[i])
    ensures Site(pages) && PagesScraped(pages) == MaxPages
  {
  }

  /** A page whose next-page step fails is the last one scraped, when it is reached. */
  lemma StopsAtFirstFailure(pages: seq<Page>, k: nat)
    requires Site(pages)
    requires 1 <= k <= |pages| && k <= MaxPages && !Advances(pages[k - 1])
    requires forall i :: 0 <= i < k - 1 ==> Advances(pages[i])
    ensures PagesScraped(pages) == k
  {
    PagesScrapedUnique(pages, k);
  }
}
