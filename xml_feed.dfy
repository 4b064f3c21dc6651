/** `generate_xml_feed` and `generate_meta_xml_feed` (crawler.py, lines
    127-179): ElementTree documents for Google Shopping (an RSS 2.0 envelope
    with the `g:` namespace) and for the Meta catalog (a plain `feed` root).
    Trees are modelled as values; escaping and the XML declaration are not. */
module XmlFeed {
  import opened Wrappers
  import opened Extraction

  /** An ElementTree element: tag, attributes in the order they were set,
      `text` (`None` when never set or set to `None`) and children. */
  datatype Element = Element(tag: string, attrs: seq<(string, string)>, text: Option<string>, children: seq<Element>)

  /** `ET.SubElement(parent, tag).text = text` creates one of these. */
  function Leaf(tag: string, text: Option<string>): Element {
    Element(tag, [], text, [])
  }

  const BaseUrl: string := "https://joyandco.com"
  const GoogleNamespace: string := "http://base.google.com/ns/1.0"
  const RssAttributes: seq<(string, string)> := [("version", "2.0"), ("xmlns:g", GoogleNamespace)]

  /** The channel's `title`, `link` and `description` children. */
  const ChannelInfo: seq<Element> := [
    Leaf("title", Some("Joy and Co Product Feed")),
    Leaf("link", Some(BaseUrl)),
    Leaf("description", Some("Product feed for Google Shopping"))]

  /** Item child tags, in the order the items are filled. */
  const GoogleTags: seq<string> :=
    ["g:id", "title", "description", "link", "g:image_link", "g:price", "g:availability", "g:condition", "g:brand"]
  const MetaTags: seq<string> :=
    ["id", "title", "description", "link", "image_link", "price", "availability", "condition", "brand"]

  /** `f"{product['price']} {product['currency']}"` */
  function PriceWithCurrency(p: Product): string {
    p.price + " " + p.currency
  }

  /** One `item` element whose nine children carry the product's fields
      under the given tags. */
  function Item(tags: seq<string>, p: Product): (item: Element)
    requires |tags| == 9
    ensures item.tag == "item" && item.attrs == [] && |item.children| == 9
    ensures forall j :: 0 <= j < 9 ==> item.children[j].tag == tags[j] && item.children[j].children == []
    ensures item.children[0].text == Some(p.id) && item.children[3].text == Some(p.link)
    ensures item.children[5].text == Some(p.price + " " + p.currency)
  {
    Element("item", [], None, [
      Leaf(tags[0], Some(p.id)),
      Leaf(tags[1], p.title),
      Leaf(tags[2], p.description),
      Leaf(tags[3], Some(p.link)),
      Leaf(tags[4], Some(p.imageLink)),
      Leaf(tags[5], Some(PriceWithCurrency(p))),
      Leaf(tags[6], Some(p.availability)),
      Leaf(tags[7], Some(p.condition)),
      Leaf(tags[8], Some(p.brand))])
  }

  /** `root` is the Google document for `products`: an `rss` root with
      `version="2.0"` and the `g:` namespace, holding one `channel` whose
      children are the title, link and description followed by one item
      per product, in order. */
  ghost predicate IsGoogleFeed(root: Element, products: seq<Product>) {
    && root.tag == "rss" && root.attrs == RssAttributes && root.text.None?
    && |root.children| == 1
    && var channel := root.children[0];
       && channel.tag == "channel" && channel.attrs == [] && channel.text.None?
       && |channel.children| == |ChannelInfo| + |products|
       && channel.children[..|ChannelInfo|] == ChannelInfo
       && forall i :: 0 <= i < |products| ==> channel.children[|ChannelInfo| + i] == Item(GoogleTags, products[i])
  }

  /** `root` is the Meta document for `products`: a bare `feed` root with one
      item per product, in order. */
  ghost predicate IsMetaFeed(root: Element, products: seq<Product>) {
    && root.tag == "feed" && root.attrs == [] && root.text.None?
    && |root.children| == |products|
    && forall i :: 0 <= i < |products| ==> root.children[i] == Item(MetaTags, products[i])
  }

  /** `generate_xml_feed`: builds the Google tree, appending one item to the
      channel per product, then produces the Meta tree through
      `generate_meta_xml_feed`. */
  method GenerateXmlFeed(products: seq<Product>) returns (google: Element, meta: Element)
    ensures IsGoogleFeed(google, products)
    ensures IsMetaFeed(meta, products)
  {
    var channel := ChannelInfo;
    for i := 0 to |products|
      invariant |channel| == |ChannelInfo| + i
      invariant channel[..|ChannelInfo|] == ChannelInfo
      invariant forall k :: 0 <= k < i ==> channel[|ChannelInfo| + k] == Item(GoogleTags, products[k])
    {
      channel := channel + [Item(GoogleTags, products[i])];
    }
    google := Element("rss", RssAttributes, None, [Element("channel", [], None, channel)]);
    meta := GenerateMetaXmlFeed(products);
  }

  /** `generate_meta_xml_feed`: appends one item to the `feed` root per product. */
  method GenerateMetaXmlFeed(products: seq<Product>) returns (root: Element)
    ensures IsMetaFeed(root, products)
  {
    var items: seq<Element> := [];
    for i := 0 to |products|
      invariant |items| == i
      invariant forall k :: 0 <= k < i ==> items[k] == Item(MetaTags, products[k])
    {
      items := items + [Item(MetaTags, products[i])];
    }
    root := Element("feed", [], None, items);
  }

  /** Splits `"<price> <currency>"` at its first space. */
  function SplitAtSpace(s: string): Option<(string, string)>
    decreases |s|
  {
    if s == [] then None
    else if s[0] == ' ' then Some(([], s[1..]))
    else match SplitAtSpace(s[1..])
      case None => None
      case Some((a, b)) => Some(([s[0]] + a, b))
  }

  /** A price without spaces is recovered from the joined price text. */
  lemma {:induction false} SplitJoinedPrice(price: string, currency: string)
    requires ' ' !in price
    ensures SplitAtSpace(price + " " + currency) == Some((price, currency))
    decreases |price|
  {
    if price == [] {
      assert price + " " + currency == [' '] + currency;
    } else {
      SplitJoinedPrice(price[1..], currency);
      assert (price + " " + currency)[1..] == price[1..] + " " + currency;
      assert [price[0]] + price[1..] == price;
    }
  }

  /** Reads a product back from an item with the given child tags, or `None`
      when the element does not have that shape. */
  function ReadItem(tags: seq<string>, e: Element): Option<Product>
    requires |tags| == 9
  {
    if e.tag == "item" && |e.children| == 9
       && (forall k :: 0 <= k < 9 ==> e.children[k].tag == tags[k])
       && (forall k :: 0 <= k < 9 && k != 1 && k != 2 ==> e.children[k].text.Some?)
    then
      var c := e.children;
      match SplitAtSpace(c[5].text.value)
      case None => None
      case Some((price, currency)) =>
        Some(Product(
          id := c[0].text.value, title := c[1].text, description := c[2].text,
          price := price, currency := currency, imageLink := c[4].text.value,
          availability := c[6].text.value, condition := c[7].text.value,
          link := c[3].text.value, brand := c[8].text.value))
    else None
  }

  /** Each item carries every field of its product: reading it back gives
      the product again, its price and currency split at the space. */
  lemma ItemRoundTrip(tags: seq<string>, p: Product)
    requires |tags| == 9 && ' ' !in p.price
    ensures ReadItem(tags, Item(tags, p)) == Some(p)
  {
    SplitJoinedPrice(p.price, p.currency);
  }

  /** Reads the products back from a Google document. */
  function ReadGoogleFeed(root: Element): Option<seq<Product>> {
    if root.tag == "rss" && |root.children| == 1 && |root.children[0].children| >= |ChannelInfo| then
      var items := root.children[0].children[|ChannelInfo|..];
      if forall i :: 0 <= i < |items| ==> ReadItem(GoogleTags, items[i]).Some? then
        Some(seq(|items|, i requires 0 <= i < |items| => ReadItem(GoogleTags, items[i]).value))
      else None
    else None
  }

  /** Reads the products back from a Meta document. */
  function ReadMetaFeed(root: Element): Option<seq<Product>> {
    if root.tag == "feed" && forall i :: 0 <= i < |root.children| ==> ReadItem(MetaTags, root.children[i]).Some? then
      Some(seq(|root.children|, i requires 0 <= i < |root.children| => ReadItem(MetaTags, root.children[i]).value))
    else None
  }

  /** The Google document holds exactly the products, in order. */
  lemma GoogleFeedRoundTrip(root: Element, products: seq<Product>)
    requires IsGoogleFeed(root, products)
    requires forall i :: 0 <= i < |products| ==> ' ' !in products[i].price
    ensures ReadGoogleFeed(root) == Some(products)
  {
    var items := root.children[0].children[|ChannelInfo|..];
    forall i | 0 <= i < |items| ensures ReadItem(GoogleTags, items[i]) == Some(products[i]) {
      assert items[i] == Item(GoogleTags, products[i]);
      ItemRoundTrip(GoogleTags, products[i]);
    }
    var read := seq(|items|, i requires 0 <= i < |items| => ReadItem(GoogleTags, items[i]).value);
    assert read == products;
  }

  /** The Meta document holds exactly the products, in order. */
  lemma MetaFeedRoundTrip(root: Element, products: seq<Product>)
    requires IsMetaFeed(root, products)
    requires forall i :: 0 <= i < |products| ==> ' ' !in products[i].price
    ensures ReadMetaFeed(root) == Some(products)
  {
    forall i | 0 <= i < |products| ensures ReadItem(MetaTags, root.children[i]) == Some(products[i]) {
      ItemRoundTrip(MetaTags, products[i]);
    }
    var read := seq(|root.children|, i requires 0 <= i < |root.children| => ReadItem(MetaTags, root.children[i]).value);
    assert read == products;
  }

  /** Both documents give each item's price as the product's price, a space
      and its currency. */
  lemma PriceTextSpec(google: Element, meta: Element, products: seq<Product>, i: int)
    requires IsGoogleFeed(google, products) && IsMetaFeed(meta, products)
    requires 0 <= i < |products|
    ensures var item := google.children[0].children[|ChannelInfo| + i];
      |item.children| == 9 && item.children[5] == Leaf("g:price", Some(products[i].price + " " + products[i].currency))
    ensures var item := meta.children[i];
      |item.children| == 9 && item.children[5] == Leaf("price", Some(products[i].price + " " + products[i].currency))
  {
  }
}
