/** The driver `main` (crawler.py, lines 36-113): select the product links,
    visit each link in order, keep the records that have a title and a
    price, and write the feeds when at least one record was kept. The
    browser is a parameter: what a page yields after `goto` and
    `wait_for_selector`. */
module Crawler {
  import opened Wrappers
  import opened Seqs
  import opened Extraction
  import opened Links
  import opened CsvFeed
  import opened XmlFeed

  /** What the browser yields for one link: the loaded page, or a failure of
      `page.goto` or of `wait_for_selector('.product-details')`, which raise. */
  datatype LoadOutcome = Loaded(view: PageView) | LoadFailed

  /** The try block at crawler.py lines 52-94 as intended: a failed load
      raises (`None`, the except branch), a loaded page is extracted. */
  function Visit(outcome: LoadOutcome): (r: Option<Product>)
    ensures r.Some? <==> outcome.Loaded?
    ensures outcome.Loaded? ==> r == Some(ExtractProduct(outcome.view)) && r.value.link == outcome.view.location.href
  {
    match outcome
    case LoadFailed => None
    case Loaded(view) => Some(ExtractProduct(view))
  }

  /** The try block as written: the argument `{ timeout: 5000 }` at line 54
      is a Python dict display keyed by the unbound name `timeout`, so its
      evaluation raises `NameError` before any page is read. */
  function VisitAsWritten(outcome: LoadOutcome): (r: Option<Product>)
    ensures r == None && !IsAcceptedResult(r)
  {
    None
  }

  /** `if product_data['title'] and product_data['price']`, in Python truthiness. */
  predicate Acceptable(p: Product) {
    Truthy(p.title) && p.price != ""
  }

  predicate IsAcceptedResult(result: Option<Product>) {
    result.Some? && Acceptable(result.value)
  }

  /** The per-link results, in link order. */
  function Results(links: seq<string>, visit: string -> Option<Product>): (results: seq<Option<Product>>)
    ensures |results| == |links|
    ensures forall i :: 0 <= i < |links| ==> results[i] == visit(links[i])
  {
    seq(|links|, i requires 0 <= i < |links| => visit(links[i]))
  }

  function Values(results: seq<Option<Product>>): (products: seq<Product>)
    requires forall i :: 0 <= i < |results| ==> results[i].Some?
    ensures |products| == |results|
    ensures forall i :: 0 <= i < |results| ==> results[i] == Some(products[i])
  {
    seq(|results|, i requires 0 <= i < |results| => results[i].value)
  }

  function Somes(products: seq<Product>): seq<Option<Product>> {
    seq(|products|, i requires 0 <= i < |products| => Some(products[i]))
  }

  /** The `products` list after the loop: the accepted records, in order. */
  function Accepted(results: seq<Option<Product>>): seq<Product> {
    Values(Filter(results, IsAcceptedResult))
  }

  /** Every kept record has a title and a price; a record is kept exactly
      when its link was processed without exception and it has both; and
      the kept records are an order-preserving subsequence of the results. */
  lemma AcceptedSpec(results: seq<Option<Product>>)
    ensures forall i :: 0 <= i < |Accepted(results)| ==> Acceptable(Accepted(results)[i])
    ensures forall p :: p in Accepted(results) <==> Some(p) in results && Acceptable(p)
    ensures IsSubsequence(Somes(Accepted(results)), results)
  {
    var kept := Filter(results, IsAcceptedResult);
    assert Somes(Accepted(results)) == kept;
    FilterIsSubsequence(results, IsAcceptedResult);
    forall p ensures p in Accepted(results) <==> Some(p) in results && Acceptable(p) {
      if p in Accepted(results) {
        var i :| 0 <= i < |Accepted(results)| && Accepted(results)[i] == p;
        assert kept[i] == Some(p);
      }
      if Some(p) in results && Acceptable(p) {
        var i :| 0 <= i < |results| && results[i] == Some(p);
        assert Some(p) in kept;
        var k :| 0 <= k < |kept| && kept[k] == Some(p);
        assert Accepted(results)[k] == p;
      }
    }
  }

  /** The records kept from two lists of links one after the other are the
      records kept from each list, in that order. */
  lemma KeptConcat(a: seq<string>, b: seq<string>, visit: string -> Option<Product>)
    ensures Accepted(Results(a + b, visit)) == Accepted(Results(a, visit)) + Accepted(Results(b, visit))
  {
    var ra, rb := Results(a, visit), Results(b, visit);
    var rab := Results(a + b, visit);
    forall i | 0 <= i < |rab| ensures rab[i] == (ra + rb)[i] {
      if i < |a| {
        assert (a + b)[i] == a[i];
      } else {
        assert (a + b)[i] == b[i - |a|];
      }
    }
    assert rab == ra + rb;
    FilterConcat(ra, rb, IsAcceptedResult);
    ValuesConcat(Filter(ra, IsAcceptedResult), Filter(rb, IsAcceptedResult));
  }

  lemma ValuesConcat(x: seq<Option<Product>>, y: seq<Option<Product>>)
    requires forall i :: 0 <= i < |x| ==> x[i].Some?
    requires forall i :: 0 <= i < |y| ==> y[i].Some?
    ensures Values(x + y) == Values(x) + Values(y)
  {
    var v := Values(x + y);
    forall i | 0 <= i < |v| ensures v[i] == (Values(x) + Values(y))[i] {
      if i < |x| {
        assert (x + y)[i] == x[i];
      } else {
        assert (x + y)[i] == y[i - |x|];
      }
    }
  }

  /** Visiting the same links in another order keeps the same records, in
      another order. */
  lemma {:induction false} KeptPermutation(l1: seq<string>, l2: seq<string>, visit: string -> Option<Product>)
    requires multiset(l1) == multiset(l2)
    ensures multiset(Accepted(Results(l1, visit))) == multiset(Accepted(Results(l2, visit)))
    decreases |l1|
  {
    if l1 == [] {
      assert |l2| == |multiset(l2)| == 0;
      assert l2 == [];
    } else {
      var x := l1[0];
      assert x in multiset(l1);
      var j :| 0 <= j < |l2| && l2[j] == x;
      var pre, post := l2[..j], l2[j + 1..];
      MultisetRemove(l1, l2, j);
      KeptPermutation(l1[1..], pre + post, visit);
      assert l1 == [x] + l1[1..];
      assert l2 == pre + [x] + post;
      KeptConcat([x], l1[1..], visit);
      KeptConcat(pre + [x], post, visit);
      KeptConcat(pre, [x], visit);
      KeptConcat(pre, post, visit);
      MoveToFront(Accepted(Results([x], visit)), Accepted(Results(l1[1..], visit)),
                  Accepted(Results(pre, visit)), Accepted(Results(post, visit)));
    }
  }

  /** One more result appends its record when it is accepted. */
  lemma AcceptedAppend(results: seq<Option<Product>>, r: Option<Product>)
    ensures Accepted(results + [r]) == Accepted(results) + if IsAcceptedResult(r) then [r.value] else []
  {
    FilterConcat(results, [r], IsAcceptedResult);
    assert Filter([r], IsAcceptedResult) == if IsAcceptedResult(r) then [r] else [];
  }

  /** The loop at crawler.py lines 51-103: visit each link, append the
      record when it has a title and a price, skip the link otherwise or
      when the visit raised. */
  method CollectProducts(links: seq<string>, visit: string -> Option<Product>) returns (products: seq<Product>)
    ensures products == Accepted(Results(links, visit))
  {
    products := [];
    for i := 0 to |links|
      invariant products == Accepted(Results(links[..i], visit))
    {
      var result := visit(links[i]);
      assert Results(links[..i + 1], visit) == Results(links[..i], visit) + [result];
      AcceptedAppend(Results(links[..i], visit), result);
      if result.Some? && Acceptable(result.value) {
        products := products + [result.value];
      }
    }
    assert links[..|links|] == links;
  }

  /** The files written at the end of a run; `None` where a file is not written. */
  datatype FeedFiles = FeedFiles(
    googleCsv: Option<seq<Row>>,
    googleXml: Option<Element>,
    metaXml: Option<Element>)

  /** The guard at crawler.py lines 108-113: the three feeds are produced
      only when at least one product was kept. */
  method WriteFeeds(products: seq<Product>) returns (files: FeedFiles)
    ensures products == [] <==> files == FeedFiles(None, None, None)
    ensures products != [] ==>
      && files.googleCsv.Some? && IsCsvFeed(files.googleCsv.value, products)
      && files.googleXml.Some? && IsGoogleFeed(files.googleXml.value, products)
      && files.metaXml.Some? && IsMetaFeed(files.metaXml.value, products)
  {
    if products != [] {
      var rows := GenerateCsvFeed(products);
      var google, meta := GenerateXmlFeed(products);
      files := FeedFiles(Some(rows), Some(google), Some(meta));
    } else {
      files := FeedFiles(None, None, None);
    }
  }

  /** A whole run with the per-link step as intended: the records kept from
      the links, and the files written. `links` is `list(set(product_links))`
      in the order the set happens to iterate, which may be any duplicate-free
      listing of the qualifying hrefs (`ProductLinks` is one). */
  method Crawl(anchorHrefs: seq<string>, links: seq<string>, load: string -> LoadOutcome)
    returns (products: seq<Product>, files: FeedFiles)
    requires IsProductLinkList(links, anchorHrefs)
    ensures products == Accepted(Results(links, (link: string) => Visit(load(link))))
    ensures products == [] <==> files == FeedFiles(None, None, None)
    ensures products != [] ==>
      && files.googleCsv.Some? && IsCsvFeed(files.googleCsv.value, products)
      && files.googleXml.Some? && IsGoogleFeed(files.googleXml.value, products)
      && files.metaXml.Some? && IsMetaFeed(files.metaXml.value, products)
  {
    products := CollectProducts(links, (link: string) => Visit(load(link)));
    files := WriteFeeds(products);
  }

  /** Two runs over different iteration orders of the same link set keep the
      same records, only in another order. */
  lemma CrawlOrderIndependent(anchorHrefs: seq<string>, links: seq<string>, other: seq<string>, load: string -> LoadOutcome)
    requires IsProductLinkList(links, anchorHrefs) && IsProductLinkList(other, anchorHrefs)
    ensures multiset(Accepted(Results(links, (link: string) => Visit(load(link))))) ==
            multiset(Accepted(Results(other, (link: string) => Visit(load(link)))))
  {
    DistinctSameElements(links, other);
    KeptPermutation(links, other, (link: string) => Visit(load(link)));
  }

  /** Every record of a run is an extracted page, so no price holds a space,
      and both XML feeds read back to exactly the kept records. */
  lemma CrawlFeedsReadBack(links: seq<string>, load: string -> LoadOutcome, files: FeedFiles)
    requires files.googleXml.Some? && files.metaXml.Some?
    requires IsGoogleFeed(files.googleXml.value, Accepted(Results(links, (link: string) => Visit(load(link)))))
    requires IsMetaFeed(files.metaXml.value, Accepted(Results(links, (link: string) => Visit(load(link)))))
    ensures ReadGoogleFeed(files.googleXml.value) == Some(Accepted(Results(links, (link: string) => Visit(load(link)))))
    ensures ReadMetaFeed(files.metaXml.value) == Some(Accepted(Results(links, (link: string) => Visit(load(link)))))
  {
    var results := Results(links, (link: string) => Visit(load(link)));
    var products := Accepted(results);
    AcceptedSpec(results);
    forall i | 0 <= i < |products| ensures ' ' !in products[i].price {
      assert products[i] in products;
      assert Some(products[i]) in results;
      var k :| 0 <= k < |results| && results[k] == Some(products[i]);
      CleanPriceHasNoSpace(load(links[k]).view);
    }
    GoogleFeedRoundTrip(files.googleXml.value, products);
    MetaFeedRoundTrip(files.metaXml.value, products);
  }

  /** As written, no link yields a record, so `products` stays empty and no
      feed is written, whatever the pages hold. */
  lemma AsWrittenCollectsNothing(links: seq<string>, load: string -> LoadOutcome)
    ensures Accepted(Results(links, (link: string) => VisitAsWritten(load(link)))) == []
  {
    var results := Results(links, (link: string) => VisitAsWritten(load(link)));
    FilterNone(results, IsAcceptedResult);
  }

  /** The intended step on one link: a page that loads and has a truthy
      title and a digit or dot in its first truthy price text gives exactly
      its extracted record; any other outcome gives none. The step as
      written gives none for every page. */
  lemma IntendedKeepsValidPage(link: string, outcome: LoadOutcome)
    ensures Accepted(Results([link], (l: string) => Visit(outcome))) ==
      if outcome.Loaded? && Truthy(Title(outcome.view)) && HasPriceChar(PriceText(outcome.view))
      then [ExtractProduct(outcome.view)] else []
  {
    if outcome.Loaded? {
      CleanPriceEmpty(PriceText(outcome.view));
    }
    AcceptedAppend([], Visit(outcome));
    assert Results([link], (l: string) => Visit(outcome)) == [] + [Visit(outcome)];
  }
}
