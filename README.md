# Joy and Co product crawler: a Dafny model of its product-record pipeline

The crawler gathers product links from the Joy and Co listing page. It then
visits each product page, runs a small JavaScript program that derives one
product record from the page, and keeps the records that have both a title
and a price. From those records it writes three merchant feeds:

- a Google Shopping CSV file;
- a Google Shopping RSS 2.0 document;
- a Meta catalog XML document.

This project models that pipeline, which is all in `crawler.py`, and proves
properties of it.

- `Strings` (`strings.dfy`): the JavaScript string operations the script uses. These are `startsWith`, `includes`, an ASCII `toLowerCase`, `split` and `pop`. `Join` is not called by the script: it is the inverse of `split`, there to state what splitting keeps.
- `Seqs` (`seqs.dfy`): order-preserving filtering (used by `Array.prototype.filter`, by the character-class `replace`, and by the accept loop) and deduplication.
- `Extraction` (`extraction.dfy`): a product page, abstracted to the value each CSS selector yields (`PageView`); the product record (`Product`); and the field-by-field "first truthy value wins" rules of the embedded script, written as JavaScript `||` on values that are `undefined` or strings.
- `Links` (`links.dfy`): the `/product/` link filter and the deduplication through a Python `set`.
- `CsvFeed` (`csv_feed.dfy`): `csv.DictWriter` with its ten field names, the writing loop, and a `DictReader`-style reader used to state the round trip.
- `XmlFeed` (`xml_feed.dfy`): ElementTree documents as an `Element` datatype, the two loops that add one `item` per product, and readers used to state the round trips.
- `Crawler` (`crawler.dfy`): the per-link step, the accept loop of `main`, the guard that writes feeds only for a non-empty product list, and a whole run.

The browser is a parameter. A run receives three inputs:

- the hrefs of the listing page's card anchors;
- the product links in the order the Python set iterates them, which may be any duplicate-free listing of the qualifying hrefs;
- a function giving, for each link, either the loaded page or a failure (`goto` or `wait_for_selector` raised).

Some facts about the script that the model keeps:

- The script has no default price: an empty price gives `''` and the record is dropped.
- The description has no fallback to the title.
- Without a truthy `data-product-id` attribute, the id is the last path piece, with no extension stripping. It is empty when the path ends in `/`.
- The script does no image validation, no retry or backoff, and reads no JSON-LD or Open Graph data.
- Links are gathered by a single selector strategy.
- Feeds are written only when at least one product was kept; with none, no file is written at all.

## Model

| member | source | states |
|---|---|---|
| `Links.ProductLinksSpec` | crawler.py:37-45 | every selected link contains `/product/`, no link occurs twice, and the links are exactly the candidate hrefs that contain `/product/` |
| `Links.ProductLinksOrderOnly` | crawler.py:45 | any other duplicate-free list of the same qualifying hrefs (another set iteration order) is a permutation of the model's list |
| `Links.ProductLinks` | crawler.py:40-45 | the link list has no duplicates, holds only qualifying hrefs of the page, and holds every qualifying href |
| `Links.NoProductAnchorsNoLinks` | crawler.py:39-45 | a listing page with no qualifying anchor gives an empty link list |
| `Strings.ContainsIff` | crawler.py:40 | the left-to-right `includes` scan succeeds exactly when the substring occurs at some index |
| `Seqs.Filter` | crawler.py:40 | the filter's result holds only satisfying elements and keeps every satisfying element of the input |
| `Seqs.FilterIsSubsequence` | crawler.py:40 | filtering preserves order: its result is a subsequence of the input |
| `Seqs.FilterMultiset` | crawler.py:65 | filtering keeps each satisfying element as often as it occurs and no other element |
| `Seqs.FilterNone` | crawler.py:40 | filtering keeps nothing when no element satisfies the predicate |
| `Seqs.Dedup` | crawler.py:45 | the deduplicated list has no duplicates and the same elements as its input |
| `Seqs.DistinctSameElements` | crawler.py:45 | two duplicate-free lists with the same elements have the same multiset |
| `Extraction.JsOr` | crawler.py:60-61 | JavaScript's or-operator on `undefined`-or-string values is truthy iff either operand is; it is the first operand when that is truthy, else the second |
| `Extraction.OrDefault` | crawler.py:91 | or-ing a value with a string literal gives the value's string when truthy, else the literal; a non-empty literal makes the result non-empty |
| `Extraction.ElementOr` | crawler.py:70-71 | or-ing two element lookups finds an element iff either selector matched; it is the first element when found, else the second lookup |
| `Extraction.CleanPrice` | crawler.py:65 | the cleaned text holds only digits and dots, and keeps every digit and dot of the text |
| `Extraction.CleanPriceEmpty` | crawler.py:65 | the cleaned text is empty exactly when the text has no digit and no dot |
| `Extraction.ExtractProduct` | crawler.py:81-92 | currency is `AED`, condition is `new`, link is `location.href`, availability is one of the two phrases, the price holds only `[0-9.]`, and the title is truthy iff a title selector gave a truthy text |
| `Extraction.TitleDescriptionSpec` | crawler.py:60-68 | title and description are the first selector's text when truthy, else the second selector's value (possibly `undefined`) |
| `Extraction.PriceSpec` | crawler.py:63-65 | the price is the in-order subsequence of the digits and dots of the first truthy price text: a subsequence of it that keeps each such character as often as it occurs; it is `''` when neither price selector gives a truthy text |
| `Extraction.CleanPriceIdempotent` | crawler.py:65 | cleaning an already cleaned price changes nothing |
| `Extraction.CleanPriceHasNoSpace` | crawler.py:65 | an extracted price never contains a space |
| `Extraction.AvailabilitySpec` | crawler.py:77-88 | availability is `out of stock` iff a stock element exists and its lower-cased text contains `out of stock` at some index; otherwise, including with no stock element, `in stock` |
| `Extraction.AvailabilityIgnoresCase` | crawler.py:79 | any casing of `out of stock` in the stock text (as `OUT OF STOCK`) makes the product out of stock |
| `Extraction.ImageLinkSpec` | crawler.py:87 | `image_link` is `''` with no image element; otherwise the first element's `src` unchanged when it starts with `http`, else `origin + src` |
| `Extraction.IdSpec` | crawler.py:74-75 | the id is the truthy `data-product-id` attribute; else it is the suffix of the path after its last `/` (the whole path if none); it contains no `/` and is `''` when the path ends in `/` |
| `Strings.ToLower` | crawler.py:79 | lower-casing keeps the length and maps each character to its lower-case form (ASCII letters) |
| `Strings.ToLowerSlice` | crawler.py:79 | lower-casing commutes with taking a slice, so a match in the text is a match in its lower-cased form |
| `Strings.Split` | crawler.py:75 | `split(sep)` gives at least one piece, and no piece contains the separator |
| `Strings.JoinSplit` | crawler.py:75 | joining the pieces of `split('/')` with `/` gives back the path |
| `Strings.LastPiece` | crawler.py:75 | `split(sep).pop()` is the text after the last separator, empty when the string ends in one |
| `Extraction.BrandSpec` | crawler.py:91 | the brand is the truthy `.brand` text, else `Joy and Co`; it is never empty |
| `Crawler.Visit` | crawler.py:52-94 | with the argument of line 54 as intended, a link yields a record iff its page loads, and then the record extracted from that page, whose link is the page's href |
| `Crawler.VisitAsWritten` | crawler.py:54 | as written, every link yields no record at all (the except branch is taken), so in particular no acceptable one |
| `Crawler.AcceptedSpec` | crawler.py:96-98 | every kept record has a truthy title and a non-empty price; a record is kept iff its link was processed without exception and it has both; kept records are an order-preserving subsequence of the per-link results |
| `Crawler.AcceptedAppend` | crawler.py:97-98 | one more result appends its record exactly when it is accepted |
| `Crawler.KeptConcat` | crawler.py:51-98 | the records kept from two link lists one after the other are the records kept from each, in that order |
| `Crawler.KeptPermutation` | crawler.py:45-98 | visiting a reordering of the links keeps a reordering of the same records |
| `Crawler.CollectProducts` | crawler.py:48-103 | the loop's `products` are the accepted records of the per-link results, in link order |
| `Crawler.WriteFeeds` | crawler.py:108-113 | no file is written for an empty product list; otherwise the CSV, Google XML and Meta XML documents are each well-formed for the products |
| `Crawler.Crawl` | crawler.py:36-113 | for any iteration order of the product-link set, a run keeps the accepted records of visiting the links in that order, and writes the three feeds, well-formed for those records, exactly when some record was kept |
| `Crawler.CrawlOrderIndependent` | crawler.py:45-103 | two iteration orders of the product-link set keep the same records, as a multiset: the feeds differ only in item order |
| `Crawler.CrawlFeedsReadBack` | crawler.py:127-179 | both XML feeds of a run read back to exactly the kept records, in order |
| `Crawler.AsWrittenCollectsNothing` | crawler.py:54 | with the step as written, every link takes the except branch, so `products` is empty for every input |
| `Crawler.IntendedKeepsValidPage` | crawler.py:52-98 | with the intended step, a link yields exactly its page's record when the page loads, has a truthy title and has a digit or a dot in its first truthy price text; otherwise it yields nothing |
| `CsvFeed.ExtraKeysEmpty` | crawler.py:125 | no key is left over exactly when every key of the dictionary is a field name |
| `CsvFeed.WriteRow` | crawler.py:125 | `writerow` gives a row iff every key is a field name (else `ValueError`); the row has one cell per field name: that key's value for a present key (`None` as `''`), `''` for a missing one |
| `CsvFeed.AsDictKeys` | crawler.py:120-125 | the record's keys are exactly the ten field names, so `writerow` never raises `ValueError` |
| `CsvFeed.CsvRowInHeaderOrder` | crawler.py:120-125 | a product's row is `id, title, description, link, image_link, price, currency, availability, condition, brand`, with `None` as an empty cell |
| `CsvFeed.GenerateCsvFeed` | crawler.py:115-125 | the header row first, then exactly one row per product in input order, each holding that product's values in header order |
| `CsvFeed.ReadRowSpec` | crawler.py:120-125 | with distinct field names, reading a row maps each field name to the cell under it |
| `CsvFeed.CsvRoundTrip` | crawler.py:119-125 | reading the written rows back gives one dictionary per product, in order, equal to the product's fields |
| `CsvFeed.EmptyCsvIsHeaderOnly` | crawler.py:123 | for no products the file is the header alone |
| `XmlFeed.GenerateXmlFeed` | crawler.py:127-157 | an `rss` root with `version="2.0"` and the `g:` namespace holds one `channel` with `title`, `link` = `https://joyandco.com` and `description`, then one `item` per product in order; the Meta document is produced as well |
| `XmlFeed.GenerateMetaXmlFeed` | crawler.py:159-179 | a bare `feed` root holds exactly one plain `item` per product, in order |
| `XmlFeed.Item` | crawler.py:139-149 | an `item` with no attributes and nine leaf children tagged in order from the tag list, whose first child holds the id, fourth the link and sixth the price, a space and the currency |
| `XmlFeed.SplitJoinedPrice` | crawler.py:146 | a price without a space is recovered from `"<price> <currency>"` by splitting at the first space |
| `XmlFeed.ItemRoundTrip` | crawler.py:139-149 | an item carries every field of its product: reading it back gives the product |
| `XmlFeed.GoogleFeedRoundTrip` | crawler.py:129-149 | the Google document reads back to exactly its products, in order |
| `XmlFeed.MetaFeedRoundTrip` | crawler.py:161-174 | the Meta document reads back to exactly its products, in order |
| `XmlFeed.PriceTextSpec` | crawler.py:146 | in both documents an item's price text is the price, a space and the currency |

## Findings

| source | as written | input that shows it | evidently intended | confidence | as-written member | corrected member |
|---|---|---|---|---|---|---|
| crawler.py:54 | `wait_for_selector('.product-details', { timeout: 5000 })` builds a Python dict keyed by the unbound name `timeout`, which raises `NameError`; the handler at line 102 catches it for every link, so no product is kept and no feed is written | any listing with at least one product link whose page has a title and a digit in its price | the keyword argument `timeout=5000`, so the wait succeeds and the page is extracted | high, not executed | `Crawler.AsWrittenCollectsNothing` | `Crawler.IntendedKeepsValidPage` |

`Crawler.Crawl` uses the intended step, `Crawler.Visit`. The step as
written is `Crawler.VisitAsWritten`.

## Left out

- Browser automation is not modelled. This covers the launch, the listing page's `goto`, `wait_for_timeout` and "view more" click loop (lines 13-34), and `browser.close` (line 105). Pages are an abstract input.
- The per-link `goto` and `wait_for_selector` (lines 53-54) are reduced to one function parameter giving the loaded page or a failure. The `NameError` that line 54 raises as written is modelled, by `Crawler.VisitAsWritten`.
- CSS selector matching and `innerText` are not modelled: they are live-DOM behaviour. Each selector is reduced to the optional value it yields.
- The DOM's resolution of `img.src` is not modelled. The model takes `src` as the page gives it.
- `Strings.ToLower`: lower-cases ASCII letters only. JavaScript's `toLowerCase` applies Unicode case mapping, which the model does not include.
- `Links.ProductLinks`: lists each link at its first occurrence, which is one possible order of Python's `list(set(...))`; that order depends on the string hash seed. `Crawler.Crawl` therefore takes the link order as an input, any duplicate-free listing of the qualifying hrefs. `Links.ProductLinksOrderOnly` shows every such listing is a permutation of `Links.ProductLinks`, and `Crawler.CrawlOrderIndependent` shows the kept records differ between orders only in order.
- The model does no file I/O: no `os.makedirs`, `open`, `tree.write` or XML declaration.
- The `csv` module's quoting and line endings, and ElementTree's escaping, are not modelled. Rows and trees are values.
- ElementTree objects are not mutated in place. Each loop accumulates a channel's (or root's) child sequence, and the tree is assembled from it.
- The `print` progress messages are not modelled.
- The exception handler at lines 102-103 is represented only as a `None` result for that link.
- `dashboard.py` and `tracking_snippets.py` are not part of this model. They hold UI rendering and fixed HTML templates, with no pipeline logic.
