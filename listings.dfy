/**
 * `get_ebay_data` from collection to the finished table (data.py:68-155):
 * the collected records, then the price column normalised and parsed, and
 * the condition and seller-type columns extracted from the seller text.
 */
module Listings {
  import opened Options
  import opened Text
  import Price
  import Tagging
  import Collector

  /** One row of the finished table. */
  datatype Listing = Listing(
    title: seq<char>,
    price: Option<real>,
    seller: seq<char>,
    condition: Option<seq<char>>,
    sellerType: Option<seq<char>>)

  /**
   * The columns of one row (data.py:117-153): separators normalised and the
   * price parsed, condition and seller type looked up in the seller text.
   * A price `clean_price` cannot read stays missing (None, NaN in the source).
   */
  function Normalize(r: Collector.Record): (l: Listing)
    ensures l.title == r.title && l.seller == r.seller
    ensures l.price.None? <==> NoDigit(r.price)
    ensures l.price.Some? ==> l.price.value >= 0.0
    ensures l.condition.None? <==> forall j :: 0 <= j < |Tagging.Conditions| ==> !Contains(r.seller, Tagging.Conditions[j])
    ensures l.condition.Some? ==> l.condition.value in Tagging.Conditions && Contains(r.seller, l.condition.value)
    ensures l.sellerType.None? <==> !Contains(r.seller, "Privat") && !Contains(r.seller, "Gewerblich")
    ensures l.sellerType.Some? ==> l.sellerType.value in Tagging.SellerTypes && Contains(r.seller, l.sellerType.value)
  {
    Price.NormalizeSeparatorsKeepsDigits(r.price);
    Listing(
      r.title,
      Price.CleanPrice(Price.NormalizeSeparators(r.price)),
      r.seller,
      Tagging.Condition(r.seller),
      Tagging.SellerType(r.seller))
  }

  /** The column operations are element-wise: one row per record, in the same order. */
  function NormalizeAll(rs: seq<Collector.Record>): (ls: seq<Listing>)
    ensures |ls| == |rs|
    ensures forall i :: 0 <= i < |rs| ==> ls[i] == Normalize(rs[i])
  {
    seq(|rs|, i requires 0 <= i < |rs| => Normalize(rs[i]))
  }

  /**
   * The whole of `get_ebay_data` over an abstract site. A collection without
   * any record gives a table without columns, on which selecting the price
   * column fails: that error is None.
   */
  method GetEbayData(pages: seq<Collector.Page>) returns (r: Option<seq<Listing>>)
    requires Collector.Site(pages)
    ensures var scraped := pages[..Collector.PagesScraped(pages)];
      (r.None? <==> Collector.TotalEntries(scraped) == 0) &&
      (r.Some? ==> r.value == NormalizeAll(Collector.PageRecords(scraped)))
  {
    var data, scraped := Collector.CollectListings(pages);
    if data == [] {
      r := None;
    } else {
      r := Some(NormalizeAll(data));
    }
  }

  /**
   * A row as the evidently intended extraction would tag it: the same row,
   * with the longest condition label at the leftmost occurrence. Where the
   * row as written has a condition, the intended one extends it.
   */
  function IntendedNormalize(r: Collector.Record): (l: Listing)
    ensures l.title == r.title && l.price == Normalize(r).price && l.seller == r.seller
    ensures l.sellerType == Normalize(r).sellerType
    ensures l.condition.None? <==> Normalize(r).condition.None?
    ensures l.condition.Some? ==> Tagging.IsPrefix(Normalize(r).condition.value, l.condition.value)
    ensures l.condition.Some? ==> Tagging.LeftmostLongest(r.seller, Tagging.Conditions, l.condition.value)
  {
    Normalize(r).(condition := Tagging.IntendedCondition(r.seller))
  }

  // ---------------------------------------------------------------------------
  // Properties of the rows
  // ---------------------------------------------------------------------------

  /** A listing without subtitle has neither a condition nor a seller type. */
  lemma MissingSubtitleUntagged(e: Collector.Entry)
    requires e.subtitle.None?
    ensures var l := Normalize(Collector.ToRecord(e));
      l.seller == Collector.NotProvided && l.condition == None && l.sellerType == None
  {
    Tagging.SentinelHasNoTags(Collector.NotProvided);
  }

  /** The price of a row is missing exactly when its price text, after the prefix, has no digit. */
  lemma PriceMissingIff(e: Collector.Entry)
    ensures Normalize(Collector.ToRecord(e)).price.None? <==>
      NoDigit(Price.StripCurrencyPrefix(e.priceText))
  {
  }

  /** No row has a negative price. */
  lemma PricesNonNegative(rs: seq<Collector.Record>)
    ensures forall i :: 0 <= i < |rs| && NormalizeAll(rs)[i].price.Some? ==>
      NormalizeAll(rs)[i].price.value >= 0.0
  {
  }

  /**
   * Rows keep page-then-node order: the row of node j of page k stands after
   * the rows of every node on the pages before k.
   */
  lemma RowPosition(pages: seq<Collector.Page>, k: nat, j: nat)
    requires k < |pages| && j < |pages[k].entries|
    ensures var rows := NormalizeAll(Collector.PageRecords(pages));
      var at := Collector.TotalEntries(pages[..k]) + j;
      at < |rows| && rows[at] == Normalize(Collector.ToRecord(pages[k].entries[j]))
  {
    Collector.RecordPosition(pages, k, j);
  }
}
