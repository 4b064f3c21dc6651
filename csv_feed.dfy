/** `generate_csv_feed` (crawler.py, lines 115-125): a `csv.DictWriter` with a
    fixed list of ten field names writes a header row, then one row per
    product dictionary. Rows are modelled as sequences of cells; quoting and
    line endings are not modelled. */
module CsvFeed {
  import opened Wrappers
  import opened Seqs
  import opened Extraction

  type Row = seq<string>

  /** The `fieldnames` list, which is also the header row. */
  const Header: Row :=
    ["id", "title", "description", "link", "image_link", "price", "currency", "availability", "condition", "brand"]

  /** The dictionary Python receives from `page.evaluate` for one product:
      the object literal's property names mapped to their values, with
      JavaScript `undefined` as `None`. */
  function AsDict(p: Product): map<string, Option<string>> {
    map[
      "id" := Some(p.id),
      "title" := p.title,
      "description" := p.description,
      "price" := Some(p.price),
      "currency" := Some(p.currency),
      "image_link" := Some(p.imageLink),
      "availability" := Some(p.availability),
      "condition" := Some(p.condition),
      "link" := Some(p.link),
      "brand" := Some(p.brand)]
  }

  /** The csv module writes `None` as an empty cell. */
  function Cell(v: Option<string>): string {
    match v
    case None => ""
    case Some(s) => s
  }

  /** The cells `DictWriter` writes for `fieldnames`: each field's value, or
      the `restval` `''` when the dictionary lacks it. */
  function Cells(fieldnames: seq<string>, dict: map<string, Option<string>>): Row {
    seq(|fieldnames|, j requires 0 <= j < |fieldnames| =>
      if fieldnames[j] in dict then Cell(dict[fieldnames[j]]) else "")
  }

  /** The dictionary keys that are not field names. */
  function ExtraKeys(fieldnames: seq<string>, dict: map<string, Option<string>>): set<string> {
    set k | k in dict && k !in fieldnames
  }

  /** No extra key is left exactly when every key is a field name. */
  lemma ExtraKeysEmpty(fieldnames: seq<string>, dict: map<string, Option<string>>)
    ensures ExtraKeys(fieldnames, dict) == {} <==> forall k :: k in dict ==> k in fieldnames
  {
    if ExtraKeys(fieldnames, dict) != {} {
      var k :| k in ExtraKeys(fieldnames, dict);
      assert k in dict && k !in fieldnames;
    } else {
      forall k | k in dict ensures k in fieldnames {
        assert k in ExtraKeys(fieldnames, dict) <==> k !in fieldnames;
      }
    }
  }

  /** `DictWriter.writerow`: with the default `extrasaction='raise'` a key
      that is not a field name raises `ValueError` (`None` here). */
  function WriteRow(fieldnames: seq<string>, dict: map<string, Option<string>>): (r: Option<Row>)
    ensures r.Some? <==> forall k :: k in dict ==> k in fieldnames
    ensures r.Some? ==> |r.value| == |fieldnames|
    ensures r.Some? ==> forall j :: 0 <= j < |fieldnames| && fieldnames[j] !in dict ==> r.value[j] == ""
    ensures r.Some? ==> forall j :: 0 <= j < |fieldnames| && fieldnames[j] in dict ==> r.value[j] == Cell(dict[fieldnames[j]])
  {
    ExtraKeysEmpty(fieldnames, dict);
    if ExtraKeys(fieldnames, dict) == {} then Some(Cells(fieldnames, dict)) else None
  }

  /** The product dictionary has exactly the header's field names as keys,
      so `writerow` never raises on it. */
  lemma AsDictKeys(p: Product)
    ensures forall k :: k in AsDict(p) <==> k in Header
    ensures ExtraKeys(Header, AsDict(p)) == {}
  {
  }

  /** `rows` is the file `generate_csv_feed` writes for `products`: the header
      first, then one row per product in order, each the cells `DictWriter`
      writes for that product's dictionary. */
  ghost predicate IsCsvFeed(rows: seq<Row>, products: seq<Product>) {
    && |rows| == |products| + 1
    && rows[0] == Header
    && forall i :: 0 <= i < |products| ==> rows[i + 1] == Cells(Header, AsDict(products[i]))
  }

  /** A product's row holds its fields in header order. */
  lemma CsvRowInHeaderOrder(p: Product)
    ensures Cells(Header, AsDict(p)) ==
      [p.id, Cell(p.title), Cell(p.description), p.link, p.imageLink,
       p.price, p.currency, p.availability, p.condition, p.brand]
  {
  }

  /** `writer.writeheader()` followed by `writer.writerow(product)` for each product. */
  method GenerateCsvFeed(products: seq<Product>) returns (rows: seq<Row>)
    ensures IsCsvFeed(rows, products)
  {
    rows := [Header];
    for i := 0 to |products|
      invariant |rows| == i + 1 && rows[0] == Header
      invariant forall k :: 0 <= k < i ==> rows[k + 1] == Cells(Header, AsDict(products[k]))
    {
      AsDictKeys(products[i]);
      var row := WriteRow(Header, AsDict(products[i]));
      rows := rows + [row.value];
    }
  }

  /** `csv.DictReader` on one data row: field name `fieldnames[j]` maps to
      cell `j`, a later duplicate name overriding an earlier one. */
  function ReadRow(fieldnames: seq<string>, row: Row): map<string, string>
    requires |row| == |fieldnames|
    decreases |fieldnames|
  {
    if fieldnames == [] then map[]
    else
      var n := |fieldnames| - 1;
      ReadRow(fieldnames[..n], row[..n])[fieldnames[n] := row[n]]
  }

  /** `list(csv.DictReader(file))`: the first row names the fields, every
      later row of matching width becomes a dictionary (`None` for a
      malformed file). */
  function ReadCsv(rows: seq<Row>): Option<seq<map<string, string>>> {
    if rows == [] then None
    else if forall i :: 1 <= i < |rows| ==> |rows[i]| == |rows[0]| then
      Some(seq(|rows| - 1, i requires 0 <= i < |rows| - 1 => ReadRow(rows[0], rows[i + 1])))
    else None
  }

  /** The dictionary a reader recovers for a product: the csv module wrote
      `None` as `''`. */
  function CsvDict(p: Product): map<string, string> {
    map k | k in AsDict(p) :: Cell(AsDict(p)[k])
  }

  /** With distinct field names, each name reads back the cell under it. */
  lemma {:induction false} ReadRowSpec(fieldnames: seq<string>, row: Row)
    requires |row| == |fieldnames| && NoDuplicates(fieldnames)
    ensures forall k :: k in ReadRow(fieldnames, row) <==> k in fieldnames
    ensures forall j :: 0 <= j < |fieldnames| ==> ReadRow(fieldnames, row)[fieldnames[j]] == row[j]
    decreases |fieldnames|
  {
    if fieldnames != [] {
      var n := |fieldnames| - 1;
      ReadRowSpec(fieldnames[..n], row[..n]);
      assert fieldnames == fieldnames[..n] + [fieldnames[n]];
      forall j | 0 <= j < n ensures fieldnames[j] != fieldnames[n] { }
    }
  }

  /** Reading the written file back gives one dictionary per product, in
      order, holding the product's fields (with `None` read back as `''`). */
  lemma CsvRoundTrip(rows: seq<Row>, products: seq<Product>)
    requires IsCsvFeed(rows, products)
    ensures ReadCsv(rows).Some?
    ensures |ReadCsv(rows).value| == |products|
    ensures forall i :: 0 <= i < |products| ==> ReadCsv(rows).value[i] == CsvDict(products[i])
  {
    forall i | 1 <= i < |rows| ensures |rows[i]| == |rows[0]| {
      assert rows[i] == Cells(Header, AsDict(products[i - 1]));
    }
    assert NoDuplicates(Header);
    forall i | 0 <= i < |products| ensures ReadRow(Header, rows[i + 1]) == CsvDict(products[i]) {
      var p := products[i];
      ReadRowSpec(Header, rows[i + 1]);
      AsDictKeys(p);
      var got := ReadRow(Header, rows[i + 1]);
      forall k | k in got ensures k in CsvDict(p) && got[k] == CsvDict(p)[k] {
        var j :| 0 <= j < |Header| && Header[j] == k;
      }
    }
  }

  /** With no products the file is the header alone. */
  lemma EmptyCsvIsHeaderOnly(rows: seq<Row>)
    requires IsCsvFeed(rows, [])
    ensures rows == [Header]
  {
  }
}
