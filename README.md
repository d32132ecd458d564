# market_screener data core, in Dafny

A model of the data layer of market_screener (`data.py`). It covers two
parts.

**Marketplace listings (`get_ebay_data`).** A loop walks at most 30 results
pages. It collects one record per listing: title, price text without its
currency prefix, and seller subtitle, or `'Not provided'` when the subtitle
is missing. The price column is then normalised: thousands points are
dropped and the decimal comma becomes a point. `clean_price` reads it: the
mean of the decimal tokens of a "bis" range, otherwise the first number, or
nothing. Condition and seller-type tags are extracted from the seller text
by matching against fixed vocabularies.

**Social-post sentiment (`get_reddit_data`).** The posts of a keyword
search (at most 500) are collected. Each post is scored by a lexicon-based
analyzer on title and body joined by a space. Each score, and the mean of
all scores, is labelled Positive (above 0.05), Negative (below -0.05) or
Neutral.

Modules:

- `Options`, `Text` (text.dfy): optional values, digits, substring occurrence.
- `Stats` (stats.dfy): sum, mean, minimum and maximum of reals.
- `Price` (price.dfy): the currency prefix, the separator replacements, and
  the two regular expressions of `clean_price`. These are modelled with
  Python `re` semantics: `findall` is leftmost and non-overlapping, and
  `search` takes the first alternative at the leftmost match. `float()` is
  an exact real.
- `Tagging` (tagging.dfy): the alternation of `str.extract`, as written and
  corrected (see Findings).
- `Collector` (collector.dfy): the page loop as an imperative method over an
  abstract sequence of pages. It is proved against the functions
  `PagesScraped` and `PageRecords`.
- `Listings` (listings.dfy): `get_ebay_data` end to end, yielding the
  finished rows. The rows carry the condition tag as the code extracts it;
  `IntendedNormalize` gives the same row with the corrected tag (see
  Findings).
- `Sentiment` (sentiment.dfy): the post loop as an imperative method, the
  scores, `classify_sentiment` and the overall label.

## Model

| member | source | states |
|---|---|---|
| Text.Contains | data.py:122 | Python's `w in s` on strings: true exactly when `w` occurs at some position of `s` |
| Price.IsRange | data.py:122 | `"bis" in price`: the text is a range exactly when "bis" occurs in it at some position |
| Price.StripCurrencyPrefix | data.py:96 | the price text loses exactly its first four characters; a shorter text becomes empty |
| Price.StripEurPrefix | data.py:96 | "EUR " followed by an amount yields the amount |
| Price.RemoveDots | data.py:117 | `str.replace('.', '')`: no point is left in the result |
| Price.RemoveDotsCounts | data.py:117 | deleting points keeps every other character with its multiplicity; the length drops by the number of points |
| Price.CommasToDots | data.py:117 | `str.replace(',', '.')`: same length, each comma becomes a point, every other character is kept in place |
| Price.CommasToDotsCounts | data.py:117 | after the replacement no comma is left, and the points are the old points plus the old commas |
| Price.NormalizeSeparators | data.py:117 | both replacements in order: no comma is left, the length is that of the text without points, and a point stands exactly where that text had a comma |
| Price.RemoveDotsConcat | data.py:117 | deleting points works piece by piece: the result for a + b is the result for a followed by the result for b |
| Price.NormalizeSeparatorsCounts | data.py:116-117 | after both replacements no comma is left; there is exactly one point per input comma; other characters are kept; the length shrinks by the number of input points |
| Price.NormalizeSeparatorsKeepsDigits | data.py:117 | the replacements neither add nor remove a digit |
| Price.SeparatorExamples | data.py:116-117 | "1.234,56" becomes "1234.56" and "29,95" becomes "29.95" |
| Price.DecimalShape | data.py:123 | digits, a point and digits form a `\d+\.\d+` token whose point is the first point |
| Price.ParseFloat | data.py:125-129 | `float()` of a numeral is never negative |
| Price.ParseFloatWholePart | data.py:125-129 | `float()` of a token lies between the value of its whole part and that value plus one |
| Price.ParseFloatInteger | data.py:129 | `float()` of a digit run is the run's decimal value |
| Price.ParseFloatDecimal | data.py:125-129 | `float()` of d.f is value(d) + value(f) / 10^len(f) |
| Price.DigitRunEnd | data.py:123-128 | greedy `\d+`: the run from i stops at the first non-digit |
| Price.DigitRunEndUnique | data.py:123-128 | the end of a maximal digit run is unique |
| Price.DecimalMatchAt | data.py:123 | `\d+\.\d+` tried at i: a match is a decimal token ending at a non-digit; no match means no decimal token starts at i |
| Price.NoDecimalMatch | data.py:123 | a digit run not followed by a point and a digit starts no decimal token |
| Price.DecimalTokenAtRunEnd | data.py:123 | a decimal token has its point where the digit run from its start ends |
| Price.FindAllDecimals | data.py:123 | `re.findall`: every match is a decimal token; each is the greedy match of the pattern at its own start; matches are left to right and do not overlap |
| Price.FindAllDecimalsComplete | data.py:123 | findall skips no match: every position where the pattern matches lies inside one of the returned matches |
| Price.FindAllDecimalsEmptyIff | data.py:123-124 | findall is empty exactly when no decimal token occurs anywhere in the text |
| Price.FindAllWithoutPoint | data.py:123 | a text without a point has no decimal token |
| Price.FindAllSkipsNonDigits | data.py:123 | findall passes over non-digits without matching |
| Price.DecimalMatchOf | data.py:123-128 | where digits, a point and digits stand, both findall and search match exactly that token |
| Price.DecimalValues | data.py:125 | `map(float, prices)`: one value per token, in order |
| Price.SearchNumber | data.py:128 | `re.search` of "digits.digits or digits": None iff no digit; otherwise the match starts at the leftmost digit, is a numeral ending at a non-digit, and is the decimal alternative whenever one can match there |
| Price.FirstNumberValue | data.py:128-129 | the value of the first number; None exactly when the text has no digit |
| Price.CleanPrice | data.py:120-129 | `clean_price`: None exactly when the text has no digit; without "bis", or with "bis" but no decimal token, the value of the first number; a "bis" text with decimal tokens gives their mean, which lies between the smallest and the largest token; never negative |
| Price.RangeHasDigit | data.py:123-125 | a text in which findall finds a decimal token has a digit |
| Price.CleanPriceOfIntegerRange | data.py:122-129 | with no decimal token, "bis" or not, the first number is returned |
| Price.CleanPriceOfTwoTokens | data.py:123-125 | a range with two decimal tokens gives their midpoint |
| Price.ThousandsPriceExample | data.py:96-129 | "EUR 1.234,56" is stripped to "1.234,56" and costs 1234.56 |
| Price.DecimalCommaExample | data.py:116-129 | "29,95" costs 29.95 |
| Price.DecimalRangeExample | data.py:121-125 | "29.95 bis EUR 32.95" costs 31.45, the mean of both ends |
| Price.IntegerRangeExample | data.py:121-129 | "10 bis 20 EUR" has no decimal token, so it costs 10, not the mean |
| Price.NoDigitExample | data.py:128-129 | "Preis auf Anfrage" has no price |
| Stats.MeanBetweenMinMax | data.py:125 | a mean lies between the minimum and the maximum |
| Stats.MeanBounds | data.py:207 | a mean of values in [lo, hi] lies in [lo, hi] |
| Stats.Sum | data.py:125 | Python's `sum` as a left-to-right total; a total of values that are not negative is not negative |
| Stats.SumConcat | data.py:125 | the total of two runs of values one after the other is the sum of their totals |
| Stats.Mean | data.py:125 | `sum(xs) / len(xs)`, also the `.mean()` of data.py:207: the mean times the count is the total; MeanBounds and MeanBetweenMinMax place it between the values |
| Stats.MeanOfTwo | data.py:125 | the mean of two values is their midpoint |
| Tagging.FirstAlternativeAt | data.py:148-152 | the alternatives tried in list order at one position: the first one that occurs there, none of the earlier ones occurs there |
| Tagging.SearchFrom | data.py:152-153 | `re` search of the alternation: None iff no term occurs; otherwise no term occurs further left, and at the match position no earlier-listed term occurs |
| Tagging.FirstMatch | data.py:152-153 | `str.extract` as written: None exactly when no term is a substring; a result is a term occurring in the text, at a position left of which no term occurs, and no term listed before it occurs at that position |
| Tagging.ShadowedNeverReported | data.py:148-152 | a term listed after one of its own prefixes is never the result |
| Tagging.ShadowedConditions | data.py:137-152 | as written, the alternatives at 0-based positions 2, 6-9, 11-13, 15, 16 and 21 are never reported: "Neuwertig", "Neu mit Etikett", "Neu ohne Etikett", "Neu mit Fehlern" (listed twice), "Neu: Sonstige (siehe Artikelbeschreibung)", "Neu mit Karton", "Neu ohne Karton", "Sehr gut - Refurbished", "Gut - Refurbished" and "Gebraucht / Artikel wurde bereits benutzt" |
| Tagging.ConditionPrefixes | data.py:137-143 | those labels extend "Neu", "Sehr gut", "Gut" or "Gebraucht", listed earlier |
| Tagging.NeuMitEtikettExample | data.py:137-152 | as written, "Neu mit Etikett" is tagged "Neu"; the corrected tag is "Neu mit Etikett" |
| Tagging.SehrGutRefurbishedExample | data.py:137-152 | as written, "Sehr gut - Refurbished" is tagged "Sehr gut"; the corrected tag is the whole label |
| Tagging.LongestAlternativeAt | data.py:137-152 | at one position, the longest term occurring there, the first listed among equally long ones |
| Tagging.LongestMatch | data.py:137-152 | corrected extraction: None exactly when no term is a substring; a result is a term that stands at the leftmost position where any term occurs and extends every term occurring there |
| Tagging.LongestAtHit | data.py:137-152 | at a position where some term occurs, the longest term there extends every term there |
| Tagging.LongestExtendsAt | data.py:137-152 | every term occurring at a position is a prefix of the longest one there |
| Tagging.LongestMatchExtendsFirst | data.py:152 | as-written and corrected extraction agree on absence, and the as-written tag is a prefix of the corrected one |
| Tagging.PrefixFreeAgree | data.py:149-153 | for a vocabulary where no term prefixes another, both rules give the same tag |
| Tagging.SellerTypesPrefixFree | data.py:145 | "Privat" and "Gewerblich" are prefix-free |
| Tagging.Condition | data.py:152 | the condition tag as the code extracts it: None exactly when no label occurs in the seller text; otherwise a label that occurs, and never one of the eleven shadowed alternatives |
| Tagging.IntendedCondition | data.py:137-152 | the corrected condition tag: None exactly when no label occurs (so exactly when the as-written tag is None); otherwise a label that extends the as-written tag, stands at the leftmost position where any label occurs, and extends every label occurring there |
| Tagging.NeuIsNotFullLabel | data.py:137-152 | the as-written tag "Neu" of "Neu mit Etikett" is not the full label at its position, so the as-written rule does not meet the corrected contract |
| Tagging.SellerType | data.py:145-153 | the seller type is "Privat", "Gewerblich" or None; None exactly when neither occurs; it equals the corrected rule's result |
| Tagging.SentinelHasNoTags | data.py:152-153 | the seller text "Not provided" gets neither a condition nor a seller type |
| Tagging.PrivateSellerExample | data.py:145-153 | "Sehr gut - Privat" is of seller type "Privat" |
| Collector.ToRecord | data.py:92-101 | a node's record keeps its title, its price text without the first four characters (empty when shorter), and its subtitle or "Not provided" |
| Collector.EntryRecords | data.py:90-103 | one record per listing node of a page, in node order |
| Collector.PageRecords | data.py:90-103 | the records of a run of pages: one per listing node, none dropped or added |
| Collector.ScrapedFrom | data.py:76-111 | scraping from page k on ends at the cap or at the first page whose step fails |
| Collector.PagesScraped | data.py:71-111 | 1 to 30 pages are scraped; every page before the last advanced; the last is page 30 or the first whose step failed |
| Collector.PagesScrapedUnique | data.py:76-111 | those properties determine the number of scraped pages |
| Collector.CollectListings | data.py:69-111 | the loop scrapes exactly `PagesScraped` pages and returns their records page by page, node by node |
| Collector.PageRecordsConcat | data.py:69-111 | records of consecutive runs of pages follow each other |
| Collector.RecordPosition | data.py:90-103 | the record of node j of page k stands at position (nodes on earlier pages) + j |
| Collector.RepeatedPageRepeatsRecords | data.py:90-103 | no deduplication: a page seen twice gives its records twice |
| Collector.CapReached | data.py:76 | when every page advances, exactly 30 pages are scraped |
| Collector.StopsAtFirstFailure | data.py:82-111 | the first page whose next-page step fails is the last one scraped |
| Listings.Normalize | data.py:117-153 | a row keeps title and seller; its price is missing exactly when the price text has no digit and is never negative; its condition and seller type are None exactly when no term occurs, and otherwise a term that occurs in the seller text |
| Listings.IntendedNormalize | data.py:137-152 | the row with the corrected condition tag: everything else as in the row as written; the condition is absent exactly when the as-written one is, and otherwise extends it and is the full label at the leftmost occurrence |
| Listings.NormalizeAll | data.py:117-153 | the column operations are element-wise: one row per record, in order |
| Listings.GetEbayData | data.py:69-155 | the rows are those of the scraped records; no row at all is the error of the empty frame |
| Listings.MissingSubtitleUntagged | data.py:98-101 | a listing without subtitle has neither condition nor seller type |
| Listings.PriceMissingIff | data.py:96-135 | a row's price is missing exactly when its price text, after the prefix, has no digit |
| Listings.PricesNonNegative | data.py:117-135 | no row has a negative price |
| Listings.RowPosition | data.py:69-155 | rows keep page-then-node order |
| Sentiment.Classify | data.py:213-219 | Positive iff score > 0.05; Negative iff score < -0.05; Neutral iff -0.05 <= score <= 0.05 |
| Sentiment.ClassifyMonotone | data.py:213-219 | a higher score never gets a lower label |
| Sentiment.ClassifyExamples | data.py:213-219 | both thresholds themselves are Neutral |
| Sentiment.Fetched | data.py:173-178 | the number of posts kept is at most the hit count and at most 500, and it stops at the failure index |
| Sentiment.CollectPosts | data.py:173-178 | the loop keeps exactly the first `Fetched` posts, in search order |
| Sentiment.PostText | data.py:204 | the scored text is the title, one space, then the body: its length is the sum of both plus one, and each part stands in its place |
| Sentiment.Scores | data.py:198-204 | one compound score per post, scored on title, a space and body |
| Sentiment.OverallScore | data.py:202-210 | the mean of the scores: undefined exactly when there is no post, and otherwise between the smallest and the largest score |
| Sentiment.ClassifyOverall | data.py:213-221 | the overall label: Positive iff the mean is defined and above 0.05; Negative iff defined and below -0.05; Neutral iff undefined or within [-0.05, 0.05] |
| Sentiment.Analyze | data.py:198-223 | every post keeps its title and body, gets its score and that score's label; the overall label is that of the mean |
| Sentiment.GetRedditData | data.py:157-225 | at most 500 scored posts, which are the analysis of the collected posts |
| Sentiment.NoPostsNeutral | data.py:207-221 | with no post the overall label is Neutral |
| Sentiment.OverallScoreBounded | data.py:200-210 | scores in [-1, 1] have a mean in [-1, 1] |
| Sentiment.UnanimousLabel | data.py:207-223 | when every post has the same label (Positive, Negative or Neutral), the overall label is that label |

## Left out

- The browser session is not modelled (data.py:27-65, 78-83, 107-108): opening the site, cookies, the search box, the "Sofort kaufen" filter, sleeps, and the HTML lookups. A page is abstract: its listing nodes, whether the next-page control is found, and whether clicking it succeeds.
- The product image URL (data.py:65) is a browser lookup and is not returned by the model.
- A listing node without a title or price element raises outside any handler and ends the whole function. The model gives every node a title and a price text.
- Collector.CollectListings: the next-page button left over from an earlier page is not modelled as an object. A step counts as successful only when the control was found on the current page and the click worked. When the control is missing, the click acts on an unbound name or a stale element, both of which raise.
- The search, the credentials and the environment (data.py:160-179) are left out. The posts the search would yield are a parameter, and so is the index of the post whose fetch raises.
- The VADER analyzer (data.py:184-200) is a parameter function from text to a real.
- Debug output is left out (data.py:87, 178, 187-195).
- Python's `float` is an exact real, so IEEE rounding is not modelled. For example, 29.95 and 32.95 average to exactly 31.45.
- `pd.to_numeric(errors='coerce')` only turns None into NaN, which is Option.None here.
- `\d` is the ASCII digits here; Python's `re` also accepts other Unicode decimal digits.
- Sentiment.OverallScore: the mean of no score is None, labelled Neutral. In the source, pandas works on an empty frame here, and gives NaN or raises, depending on its version.
- Sentiment.CollectPosts: a failing search keeps the posts appended before the error, which is what the code does.
- Listings.GetEbayData: a table with no record is None. Selecting the price column of a frame built from an empty list fails in the source.
- The UI module (app.py) is not part of this model.

## Findings

| source | as written | input that shows it | evidently intended | confidence | as-written member | corrected member |
|---|---|---|---|---|---|---|
| data.py:137-152 | the condition alternation is tried in list order at the leftmost match, so a label listed after one of its own prefixes can never be extracted; eleven alternatives (ten distinct labels) are dead | seller text "Neu mit Etikett" is tagged "Neu"; "Sehr gut - Refurbished" is tagged "Sehr gut" | extract the full label that occurs ("Neu mit Etikett", "Sehr gut - Refurbished") | not executed | Tagging.FirstMatch, Tagging.Condition, Tagging.ShadowedConditions, Tagging.NeuMitEtikettExample, Tagging.NeuIsNotFullLabel | Tagging.LongestMatch, Tagging.IntendedCondition, Listings.IntendedNormalize |
