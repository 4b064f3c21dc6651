/** The product record the crawler's embedded JavaScript builds from one
    product page (crawler.py, lines 57-94). The page is abstracted to the
    values its selectors return; every field follows a "first truthy value
    wins" chain of JavaScript `||` and `?.` operators. */
module Extraction {
  import opened Wrappers
  import opened Strings
  import opened Seqs

  /** `window.location` after navigating to the product page. */
  datatype Location = Location(href: string, origin: string, pathname: string)

  /** What each selector of the script yields on a product page: `None` when
      `document.querySelector` returns `null`, otherwise the element's
      `innerText`, its `src`, or its attribute value. */
  datatype PageView = PageView(
    location: Location,
    productTitle: Option<string>,        // h1.product-title
    detailsHeading: Option<string>,      // .product-details h1
    productPrice: Option<string>,        // .product-price
    price: Option<string>,               // .price
    productDescription: Option<string>,  // .product-description
    description: Option<string>,         // .description
    productImage: Option<string>,        // .product-image img, its src
    galleryImage: Option<string>,        // .product-gallery img, its src
    productIdAttr: Option<string>,       // [data-product-id], its data-product-id
    stockStatus: Option<string>,         // .stock-status, .availability
    brand: Option<string>)               // .brand

  /** The object the script returns. `title` and `description` keep
      JavaScript's `undefined` as `None`; the other fields are always strings. */
  datatype Product = Product(
    id: string,
    title: Option<string>,
    description: Option<string>,
    price: string,
    currency: string,
    imageLink: string,
    availability: string,
    condition: string,
    link: string,
    brand: string)

  const Currency: string := "AED"
  const Condition: string := "new"
  const DefaultBrand: string := "Joy and Co"
  const InStockText: string := "in stock"
  const OutOfStockText: string := "out of stock"

  /** JavaScript truthiness of a value that is either `undefined` or a string. */
  predicate Truthy(v: Option<string>) {
    v.Some? && v.value != ""
  }

  /** `a || b` on values that are `undefined` or strings. */
  function JsOr(a: Option<string>, b: Option<string>): (r: Option<string>)
    ensures Truthy(r) <==> Truthy(a) || Truthy(b)
    ensures Truthy(a) ==> r == a
    ensures !Truthy(a) ==> r == b
  {
    if Truthy(a) then a else b
  }

  /** `a || d` where the default `d` is a string literal: a non-empty
      default makes the result non-empty. */
  function OrDefault(a: Option<string>, d: string): (r: string)
    ensures Truthy(a) ==> Some(r) == a
    ensures !Truthy(a) ==> r == d
    ensures d != "" ==> r != ""
  {
    if Truthy(a) then a.value else d
  }

  /** `a || b` on elements: any element found is truthy, whatever its text. */
  function ElementOr(a: Option<string>, b: Option<string>): (r: Option<string>)
    ensures r.Some? <==> a.Some? || b.Some?
    ensures a.Some? ==> r == a
    ensures a.None? ==> r == b
  {
    if a.Some? then a else b
  }

  predicate IsPriceChar(c: char) {
    '0' <= c <= '9' || c == '.'
  }

  /** `text.replace(/[^0-9.]/g, '')`: drop every character outside `[0-9.]`. */
  function CleanPrice(text: string): (r: string)
    ensures forall i :: 0 <= i < |r| ==> IsPriceChar(r[i])
    ensures forall i :: 0 <= i < |text| && IsPriceChar(text[i]) ==> text[i] in r
  {
    Filter(text, IsPriceChar)
  }

  /** Some character of `text` is a digit or a dot. */
  predicate HasPriceChar(text: string) {
    exists k :: 0 <= k < |text| && IsPriceChar(text[k])
  }

  /** The cleaned price is empty exactly when the text has no digit and no dot. */
  lemma CleanPriceEmpty(text: string)
    ensures CleanPrice(text) == "" <==> !HasPriceChar(text)
  {
    var r := CleanPrice(text);
    if r != "" {
      assert r[0] in text;
      var k :| 0 <= k < |text| && text[k] == r[0];
      assert IsPriceChar(text[k]);
    }
    if HasPriceChar(text) {
      var k :| 0 <= k < |text| && IsPriceChar(text[k]);
      assert text[k] in r;
    }
  }

  function Title(v: PageView): Option<string> {
    JsOr(v.productTitle, v.detailsHeading)
  }

  /** `priceText`: the first truthy price text, else `''`. */
  function PriceText(v: PageView): string {
    OrDefault(JsOr(v.productPrice, v.price), "")
  }

  function Description(v: PageView): Option<string> {
    JsOr(v.productDescription, v.description)
  }

  /** `image_link`: empty without an image element, the `src` when it starts
      with `http`, otherwise the `src` appended to the page origin. */
  function ImageLink(v: PageView): string {
    match ElementOr(v.productImage, v.galleryImage)
    case None => ""
    case Some(src) => if StartsWith(src, "http") then src else v.location.origin + src
  }

  /** The product id: the `data-product-id` attribute if truthy, else the
      last `/`-separated piece of the path. */
  function Id(v: PageView): string {
    OrDefault(v.productIdAttr, Last(Split(v.location.pathname, '/')))
  }

  /** `inStock`: with a stock element, its lower-cased text must not contain
      `out of stock`; with none, the product is in stock. */
  predicate InStock(v: PageView) {
    match v.stockStatus
    case None => true
    case Some(text) => !Contains(ToLower(text), OutOfStockText)
  }

  function Brand(v: PageView): string {
    OrDefault(v.brand, DefaultBrand)
  }

  /** The object literal at crawler.py lines 81-92. */
  function ExtractProduct(v: PageView): (p: Product)
    ensures p.currency == Currency && p.condition == Condition
    ensures p.link == v.location.href
    ensures p.availability == InStockText || p.availability == OutOfStockText
    ensures forall i :: 0 <= i < |p.price| ==> IsPriceChar(p.price[i])
    ensures Truthy(p.title) <==> Truthy(v.productTitle) || Truthy(v.detailsHeading)
  {
    Product(
      id := Id(v),
      title := Title(v),
      description := Description(v),
      price := CleanPrice(PriceText(v)),
      currency := Currency,
      imageLink := ImageLink(v),
      availability := if InStock(v) then InStockText else OutOfStockText,
      condition := Condition,
      link := v.location.href,
      brand := Brand(v))
  }

  /** Title and description take the first selector's text when it is
      truthy and the second selector's value otherwise, which may be
      `undefined` or empty. */
  lemma TitleDescriptionSpec(v: PageView)
    ensures Truthy(v.productTitle) ==> ExtractProduct(v).title == v.productTitle
    ensures !Truthy(v.productTitle) ==> ExtractProduct(v).title == v.detailsHeading
    ensures Truthy(v.productDescription) ==> ExtractProduct(v).description == v.productDescription
    ensures !Truthy(v.productDescription) ==> ExtractProduct(v).description == v.description
  {
  }

  /** The cleaned price is exactly the in-order subsequence of the digits and
      dots of the price text: it keeps the order, keeps every such character
      as often as it occurs and nothing else, and is empty when no price
      selector yields a truthy text. */
  lemma PriceSpec(v: PageView)
    ensures var text := if Truthy(v.productPrice) then v.productPrice.value
                        else if Truthy(v.price) then v.price.value else "";
      && ExtractProduct(v).price == CleanPrice(text)
      && IsSubsequence(ExtractProduct(v).price, text)
      && (forall c :: multiset(ExtractProduct(v).price)[c] ==
            if IsPriceChar(c) then multiset(text)[c] else 0)
      && (!Truthy(v.productPrice) && !Truthy(v.price) ==> ExtractProduct(v).price == "")
  {
    var text := PriceText(v);
    FilterIsSubsequence(text, IsPriceChar);
    forall c ensures multiset(CleanPrice(text))[c] == if IsPriceChar(c) then multiset(text)[c] else 0 {
      FilterMultiset(text, IsPriceChar, c);
    }
  }

  /** Cleaning an already clean price changes nothing. */
  lemma CleanPriceIdempotent(text: string)
    ensures CleanPrice(CleanPrice(text)) == CleanPrice(text)
  {
    FilterIdempotent(text, IsPriceChar);
  }

  /** The cleaned price never holds a space, so `"<price> <currency>"` can be split back. */
  lemma CleanPriceHasNoSpace(v: PageView)
    ensures ' ' !in ExtractProduct(v).price
  {
    var p := ExtractProduct(v).price;
    forall i | 0 <= i < |p| ensures p[i] != ' ' {
      assert IsPriceChar(p[i]);
    }
  }

  /** The stock element exists and its lower-cased text has `out of stock` at some index. */
  ghost predicate StockSaysOut(v: PageView) {
    v.stockStatus.Some? && exists i :: OccursAt(ToLower(v.stockStatus.value), OutOfStockText, i)
  }

  /** Availability is `out of stock` exactly when a stock element exists and
      its lower-cased text contains `out of stock`; otherwise, and in
      particular without a stock element, it is `in stock`. */
  lemma AvailabilitySpec(v: PageView)
    ensures ExtractProduct(v).availability == OutOfStockText <==> StockSaysOut(v)
    ensures ExtractProduct(v).availability == InStockText <==> !StockSaysOut(v)
    ensures v.stockStatus.None? ==> ExtractProduct(v).availability == InStockText
  {
    assert InStockText != OutOfStockText by { assert InStockText[0] != OutOfStockText[0]; }
    if v.stockStatus.Some? {
      ContainsIff(ToLower(v.stockStatus.value), OutOfStockText);
    }
  }

  /** The check ignores case: any casing of `out of stock` in the stock text,
      such as `OUT OF STOCK` or `Out of Stock`, marks the product out of stock. */
  lemma AvailabilityIgnoresCase(v: PageView, phrase: string, i: int)
    requires v.stockStatus.Some? && OccursAt(v.stockStatus.value, phrase, i)
    requires ToLower(phrase) == OutOfStockText
    ensures ExtractProduct(v).availability == OutOfStockText
  {
    var text := v.stockStatus.value;
    ToLowerSlice(text, i, i + |phrase|);
    assert OccursAt(ToLower(text), OutOfStockText, i);
    AvailabilitySpec(v);
  }

  /** The image link's three cases. */
  lemma ImageLinkSpec(v: PageView)
    ensures v.productImage.None? && v.galleryImage.None? ==> ExtractProduct(v).imageLink == ""
    ensures forall src :: (v.productImage == Some(src) || (v.productImage.None? && v.galleryImage == Some(src))) ==>
      ExtractProduct(v).imageLink == (if StartsWith(src, "http") then src else v.location.origin + src)
  {
  }

  /** The id is the truthy `data-product-id` attribute, else the text after
      the last `/` of the path, which is empty when the path ends in `/`. */
  lemma IdSpec(v: PageView)
    ensures Truthy(v.productIdAttr) ==> ExtractProduct(v).id == v.productIdAttr.value
    ensures var path := v.location.pathname; var id := ExtractProduct(v).id;
      !Truthy(v.productIdAttr) ==>
        && '/' !in id
        && |id| <= |path| && path[|path| - |id|..] == id
        && (|id| < |path| ==> path[|path| - |id| - 1] == '/')
        && (|path| > 0 && path[|path| - 1] == '/' ==> id == "")
  {
    assert ExtractProduct(v).id == Id(v);
    LastPiece(v.location.pathname, '/');
  }

  /** The brand is the truthy `.brand` text, else `Joy and Co`; it is never empty. */
  lemma BrandSpec(v: PageView)
    ensures Truthy(v.brand) ==> ExtractProduct(v).brand == v.brand.value
    ensures !Truthy(v.brand) ==> ExtractProduct(v).brand == DefaultBrand
    ensures ExtractProduct(v).brand != ""
  {
  }
}
