/** Product-link selection (crawler.py, lines 37-45): keep the hrefs of the
    card anchors that contain `/product/`, then drop duplicates. */
module Links {
  import opened Strings
  import opened Seqs

  const ProductPathMarker: string := "/product/"

  predicate IsProductHref(href: string) {
    Contains(href, ProductPathMarker)
  }

  /** `links.filter(link => link.href.includes('/product/')).map(link => link.href)`,
      over the hrefs of the `.product-card a, .product-item a` anchors in
      document order. */
  function ProductHrefs(hrefs: seq<string>): seq<string> {
    Filter(hrefs, IsProductHref)
  }

  /** `list(set(product_links))`. Python's set iteration order depends on the
      string hash seed; the model lists each link at its first occurrence. */
  function ProductLinks(hrefs: seq<string>): (links: seq<string>)
    ensures NoDuplicates(links)
    ensures forall i :: 0 <= i < |links| ==> IsProductHref(links[i]) && links[i] in hrefs
    ensures forall i :: 0 <= i < |hrefs| && IsProductHref(hrefs[i]) ==> hrefs[i] in links
  {
    var kept := ProductHrefs(hrefs);
    var links := Dedup(kept);
    assert forall i :: 0 <= i < |links| ==> links[i] in kept;
    links
  }

  /** A list is a valid result of line 45: no duplicates, and exactly the
      qualifying hrefs as its elements. */
  ghost predicate IsProductLinkList(links: seq<string>, hrefs: seq<string>) {
    && NoDuplicates(links)
    && forall l :: l in links <==> l in hrefs && IsProductHref(l)
  }

  /** Every link kept contains `/product/`, none occurs twice, and every
      qualifying href is kept. */
  lemma ProductLinksSpec(hrefs: seq<string>)
    ensures IsProductLinkList(ProductLinks(hrefs), hrefs)
    ensures forall i :: 0 <= i < |ProductLinks(hrefs)| ==> Contains(ProductLinks(hrefs)[i], ProductPathMarker)
  {
    var kept := ProductHrefs(hrefs);
    var links := ProductLinks(hrefs);
    forall l ensures l in links <==> l in hrefs && IsProductHref(l) {
      if l in links {
        var i :| 0 <= i < |links| && links[i] == l;
        assert l in kept;
      }
      if l in hrefs && IsProductHref(l) {
        var i :| 0 <= i < |hrefs| && hrefs[i] == l;
        assert l in kept;
        var k :| 0 <= k < |kept| && kept[k] == l;
      }
    }
  }

  /** Any other valid result of line 45 lists the same links, only in another order. */
  lemma ProductLinksOrderOnly(hrefs: seq<string>, other: seq<string>)
    requires IsProductLinkList(other, hrefs)
    ensures multiset(other) == multiset(ProductLinks(hrefs))
  {
    ProductLinksSpec(hrefs);
    DistinctSameElements(other, ProductLinks(hrefs));
  }

  /** A listing page with no qualifying anchor gives no links. */
  lemma NoProductAnchorsNoLinks(hrefs: seq<string>)
    requires forall i :: 0 <= i < |hrefs| ==> !IsProductHref(hrefs[i])
    ensures ProductLinks(hrefs) == []
  {
    FilterNone(hrefs, IsProductHref);
  }
}
