/**
 * The product catalog (`Product`): product rows become records keyed by the
 * concatenated digests of the first five characters of the name, upper-cased.
 * A lookup by key returns the first record in load order with that key.
 */
module Catalog {
  import opened Wrappers
  import opened Text
  import opened Barcode

  /** How many leading characters of a name form its barcode prefix. */
  const PrefixLength := 5

  /** One row of the products file: the `Product` cell as text and the `Price` cell, absent when missing. */
  datatype ProductRow = ProductRow(product: string, price: Option<real>)

  /** A loaded product: name, price, encoded prefix and binary encoding (its key). */
  datatype ProductRecord = ProductRecord(name: string, price: real, prefix: string, encoding: string)

  /** The outcome of a lookup by key. */
  datatype Lookup =
    | Hit(record: ProductRecord)
    | Miss
    | NoEncodingColumn  // the catalog holds no rows, so it has no encoding column (KeyError)

  /** A row is loaded only when its trimmed name has five characters or more and it has a price. */
  predicate Kept(row: ProductRow)
  {
    |Strip(row.product)| >= PrefixLength && row.price.Some?
  }

  /** The digests of an encoding, concatenated in order. */
  function Binaries(es: seq<Encoded>): string
  {
    if es == [] then "" else es[0].binary + Binaries(es[1..])
  }

  /** The key of a prefix: the digests of its characters that have a row, in prefix order. */
  function Key(table: seq<Mapping>, prefix: string): string
  {
    Binaries(Encoding(table, prefix))
  }

  function RecordOf(table: seq<Mapping>, row: ProductRow): ProductRecord
    requires Kept(row)
  {
    var name := Strip(row.product);
    var prefix := Upper(name[..PrefixLength]);
    ProductRecord(name, row.price.value, prefix, Key(table, prefix))
  }

  /**
   * The records `load_products` keeps, in row order.  With an empty character
   * table every lookup of a prefix character fails, and the failure is caught
   * and the row skipped, so nothing is kept.
   */
  function CatalogOf(table: seq<Mapping>, rows: seq<ProductRow>): seq<ProductRecord>
  {
    if rows == [] then []
    else
      var last := rows[|rows| - 1];
      CatalogOf(table, rows[..|rows| - 1]) + (if Kept(last) && table != [] then [RecordOf(table, last)] else [])
  }

  lemma CatalogStep(table: seq<Mapping>, rows: seq<ProductRow>, i: nat)
    requires i < |rows|
    ensures CatalogOf(table, rows[..i + 1])
            == CatalogOf(table, rows[..i]) + (if Kept(rows[i]) && table != [] then [RecordOf(table, rows[i])] else [])
  {
    assert rows[..i + 1][..i] == rows[..i];
  }

  /** Index of the first record whose encoding equals `code`. */
  function FirstWithEncoding(products: seq<ProductRecord>, code: string): (r: Option<nat>)
    ensures r.Some? ==> r.value < |products| && products[r.value].encoding == code
    ensures r.Some? ==> forall j :: 0 <= j < r.value ==> products[j].encoding != code
    ensures r.None? ==> forall j :: 0 <= j < |products| ==> products[j].encoding != code
  {
    if products == [] then None
    else if products[0].encoding == code then Some(0)
    else match FirstWithEncoding(products[1..], code)
      case None => None
      case Some(k) => Some(k + 1)
  }

  /**
   * `decode_product`: the first record in load order whose encoding equals the
   * code, a miss when there is none, and a missing-column failure when the
   * catalog is empty.
   */
  function DecodeProduct(products: seq<ProductRecord>, code: string): (r: Lookup)
    ensures r.NoEncodingColumn? <==> products == []
    ensures r.Miss? <==> products != [] && forall k :: 0 <= k < |products| ==> products[k].encoding != code
    ensures r.Hit? ==> r.record.encoding == code
    ensures r.Hit? ==> exists k :: 0 <= k < |products| && products[k] == r.record
                                   && forall j :: 0 <= j < k ==> products[j].encoding != code
  {
    if products == [] then NoEncodingColumn
    else match FirstWithEncoding(products, code)
      case None => Miss
      case Some(k) => Hit(products[k])
  }

  lemma {:induction false} BinariesAppend(a: seq<Encoded>, b: seq<Encoded>)
    ensures Binaries(a + b) == Binaries(a) + Binaries(b)
    decreases |a|
  {
    if a == [] {
      assert a + b == b;
    } else {
      assert (a + b)[1..] == a[1..] + b;
      BinariesAppend(a[1..], b);
    }
  }

  /** Every digest in the table has the same width. */
  predicate UniformWidth(table: seq<Mapping>, w: nat)
  {
    forall k :: 0 <= k < |table| ==> |table[k].binary| == w
  }

  lemma {:induction false} BinariesUniform(es: seq<Encoded>, w: nat)
    requires forall k :: 0 <= k < |es| ==> |es[k].binary| == w
    ensures |Binaries(es)| == w * |es|
    decreases |es|
  {
    if es != [] {
      BinariesUniform(es[1..], w);
      assert w * |es| == w + w * (|es| - 1);
    }
  }

  lemma {:induction false} EncodingWidth(table: seq<Mapping>, text: string, w: nat)
    requires UniformWidth(table, w)
    ensures forall k :: 0 <= k < |Encoding(table, text)| ==> |Encoding(table, text)[k].binary| == w
    decreases |text|
  {
    if text != [] {
      EncodingWidth(table, text[..|text| - 1], w);
    }
  }

  lemma {:induction false} MulStrict(w: nat, a: nat, b: nat)
    requires w > 0 && a < b
    ensures w * a < w * b
    decreases b - a
  {
    if a + 1 < b {
      MulStrict(w, a + 1, b);
    }
    assert w * (a + 1) == w * a + w;
  }

  /**
   * With digests of one width `w`, a key is `w` characters per prefix
   * character that has a row: exactly `w` times the prefix length when all of
   * them do (45 for five nine-element Code 39 characters), and shorter when
   * one of them has no row.
   */
  lemma KeyWidth(table: seq<Mapping>, prefix: string, w: nat)
    requires UniformWidth(table, w)
    ensures AllMapped(table, prefix) ==> |Key(table, prefix)| == w * |prefix|
    ensures !AllMapped(table, prefix) && w > 0 ==> |Key(table, prefix)| < w * |prefix|
  {
    EncodingWidth(table, prefix, w);
    BinariesUniform(Encoding(table, prefix), w);
    if AllMapped(table, prefix) {
      EncodingAllMapped(table, prefix);
    } else {
      EncodingShorter(table, prefix);
      if w > 0 {
        MulStrict(w, |Encoding(table, prefix)|, |prefix|);
      }
    }
  }

  /** Loading rows one after the other loads each part in turn. */
  lemma {:induction false} CatalogAppend(table: seq<Mapping>, a: seq<ProductRow>, b: seq<ProductRow>)
    ensures CatalogOf(table, a + b) == CatalogOf(table, a) + CatalogOf(table, b)
    decreases |b|
  {
    if b == [] {
      assert a + b == a;
    } else {
      var b' := b[..|b| - 1];
      assert (a + b)[..|a + b| - 1] == a + b';
      CatalogAppend(table, a, b');
    }
  }

  /** Well-formed catalog record: what `load_products` guarantees of every record it keeps. */
  predicate Loaded(table: seq<Mapping>, rec: ProductRecord)
  {
    && |rec.name| >= PrefixLength
    && rec.prefix == Upper(rec.name[..PrefixLength])
    && |rec.prefix| == PrefixLength
    && rec.encoding == Key(table, rec.prefix)
  }

  /**
   * The record of a kept row has the row's trimmed name, at least five
   * characters long, the row's price, the upper-cased first five characters
   * as prefix and the key of that prefix as encoding.
   */
  lemma RecordOfKept(table: seq<Mapping>, row: ProductRow)
    requires Kept(row)
    ensures Loaded(table, RecordOf(table, row))
    ensures RecordOf(table, row).name == Strip(row.product) && Some(RecordOf(table, row).price) == row.price
  {
  }

  /** Every record in the catalog is the record of a kept row. */
  lemma {:induction false} CatalogFromKeptRows(table: seq<Mapping>, rows: seq<ProductRow>)
    ensures forall k :: 0 <= k < |CatalogOf(table, rows)| ==>
              exists i :: 0 <= i < |rows| && Kept(rows[i]) && CatalogOf(table, rows)[k] == RecordOf(table, rows[i])
    decreases |rows|
  {
    if rows != [] {
      var init := rows[..|rows| - 1];
      CatalogFromKeptRows(table, init);
      var c := CatalogOf(table, rows);
      forall k | 0 <= k < |c|
        ensures exists i :: 0 <= i < |rows| && Kept(rows[i]) && c[k] == RecordOf(table, rows[i])
      {
        if k < |CatalogOf(table, init)| {
          var i :| 0 <= i < |init| && Kept(init[i]) && CatalogOf(table, init)[k] == RecordOf(table, init[i]);
          assert rows[i] == init[i];
        } else {
          assert c[k] == RecordOf(table, rows[|rows| - 1]);
        }
      }
    } else {
      assert CatalogOf(table, rows) == [];
    }
  }

  /** Every record in the catalog is well formed. */
  lemma CatalogLoaded(table: seq<Mapping>, rows: seq<ProductRow>)
    ensures forall rec :: rec in CatalogOf(table, rows) ==> Loaded(table, rec)
  {
    CatalogFromKeptRows(table, rows);
    forall rec | rec in CatalogOf(table, rows) ensures Loaded(table, rec) {
      var k :| 0 <= k < |CatalogOf(table, rows)| && CatalogOf(table, rows)[k] == rec;
      var i :| 0 <= i < |rows| && Kept(rows[i]) && rec == RecordOf(table, rows[i]);
      RecordOfKept(table, rows[i]);
    }
  }

  /** Counts the rows `load_products` keeps. */
  function KeptCount(rows: seq<ProductRow>): nat
  {
    if rows == [] then 0 else (if Kept(rows[0]) then 1 else 0) + KeptCount(rows[1..])
  }

  /** With a non-empty character table, exactly the kept rows become records. */
  lemma {:induction false} CatalogSize(table: seq<Mapping>, rows: seq<ProductRow>)
    requires table != []
    ensures |CatalogOf(table, rows)| == KeptCount(rows)
    decreases |rows|
  {
    if rows != [] {
      assert rows == [rows[0]] + rows[1..];
      CatalogAppend(table, [rows[0]], rows[1..]);
      assert [rows[0]][..0] == [];
      CatalogSize(table, rows[1..]);
    }
  }

  /** An empty character table yields an empty catalog. */
  lemma {:induction false} CatalogWithoutTable(rows: seq<ProductRow>)
    ensures CatalogOf([], rows) == []
    decreases |rows|
  {
    if rows != [] {
      CatalogWithoutTable(rows[..|rows| - 1]);
    }
  }

  /** Rows for different characters carry different digests. */
  predicate DistinctDigests(table: seq<Mapping>)
  {
    forall i, j :: 0 <= i < j < |table| && table[i].asciiChar != table[j].asciiChar ==> table[i].binary != table[j].binary
  }

  /** A key built from a table of binary digests is itself a string of binary digits. */
  lemma {:induction false} KeyBinary(table: seq<Mapping>, prefix: string)
    requires forall k :: 0 <= k < |table| ==> BinaryDigits(table[k].binary)
    ensures BinaryDigits(Key(table, prefix))
    decreases |prefix|
  {
    if prefix != [] {
      var init := prefix[..|prefix| - 1];
      KeyBinary(table, init);
      var last := EncodeChar(table, prefix[|prefix| - 1]);
      BinariesAppend(Encoding(table, init), last);
      assert Binaries(last) == if last == [] then "" else last[0].binary + "";
    }
  }

  /** The key of a text starting with a character that has a row starts with that row's digest. */
  lemma KeyCons(table: seq<Mapping>, c: char, t: string)
    requires Mapped(table, c)
    ensures Key(table, [c] + t) == table[FirstRow(table, c).value].binary + Key(table, t)
  {
    EncodingAppend(table, [c], t);
    assert [c][..0] == [];
    var row := table[FirstRow(table, c).value];
    assert Encoding(table, [c]) == [Encoded(c, row.barcode, row.binary)];
    BinariesAppend(Encoding(table, [c]), Encoding(table, t));
  }

  /**
   * With digests of one positive width that differ between characters, the
   * key of a text whose characters all have rows determines the text.
   */
  lemma {:induction false} KeyInjective(table: seq<Mapping>, w: nat, s1: string, s2: string)
    requires w > 0 && UniformWidth(table, w) && DistinctDigests(table)
    requires AllMapped(table, s1) && AllMapped(table, s2)
    requires Key(table, s1) == Key(table, s2)
    ensures s1 == s2
    decreases |s1|
  {
    KeyWidth(table, s1, w);
    KeyWidth(table, s2, w);
    if |s1| < |s2| {
      MulStrict(w, |s1|, |s2|);
    } else if |s2| < |s1| {
      MulStrict(w, |s2|, |s1|);
    } else if s1 != [] {
      var i1, i2 := FirstRow(table, s1[0]).value, FirstRow(table, s2[0]).value;
      assert s1 == [s1[0]] + s1[1..] && s2 == [s2[0]] + s2[1..];
      KeyCons(table, s1[0], s1[1..]);
      KeyCons(table, s2[0], s2[1..]);
      var k := Key(table, s1);
      assert |table[i1].binary| == w && |table[i2].binary| == w;
      assert table[i1].binary == k[..w] == table[i2].binary;
      if i1 != i2 {
        // the earlier of the two rows would be the first row of both characters
        assert false;
      }
      assert [s1[0]] == table[i1].asciiChar == [s2[0]];
      assert Key(table, s1[1..]) == k[w..] == Key(table, s2[1..]);
      KeyInjective(table, w, s1[1..], s2[1..]);
    }
  }

  /**
   * Looking up the encoding of any catalog record finds a record with that
   * encoding, no later in load order.  When the digests have one positive
   * width and differ between characters, and every prefix character has a
   * row, the record found has the same five-character prefix: two products
   * sharing a prefix cannot be told apart, and the first one loaded wins.
   */
  lemma LookupRoundTrip(table: seq<Mapping>, rows: seq<ProductRow>, k: nat, w: nat)
    requires k < |CatalogOf(table, rows)|
    ensures var c := CatalogOf(table, rows);
            DecodeProduct(c, c[k].encoding).Hit? && DecodeProduct(c, c[k].encoding).record.encoding == c[k].encoding
    ensures var c := CatalogOf(table, rows);
            w > 0 && UniformWidth(table, w) && DistinctDigests(table)
            && (forall rec :: rec in c ==> AllMapped(table, rec.prefix))
            ==> DecodeProduct(c, c[k].encoding).record.prefix == c[k].prefix
  {
    var c := CatalogOf(table, rows);
    var found := DecodeProduct(c, c[k].encoding);
    assert !found.Miss?;
    if w > 0 && UniformWidth(table, w) && DistinctDigests(table) && (forall rec :: rec in c ==> AllMapped(table, rec.prefix)) {
      CatalogLoaded(table, rows);
      var j :| 0 <= j < |c| && c[j] == found.record;
      assert Loaded(table, c[j]) && Loaded(table, c[k]);
      KeyInjective(table, w, c[j].prefix, c[k].prefix);
    }
  }

  /** The product model: its character table and the records `load_products` stored. */
  class Product {
    const barcodeModel: BarcodeData
    var products: seq<ProductRecord>

    /** A new product model has no records. */
    constructor(barcodeModel: BarcodeData)
      ensures this.barcodeModel == barcodeModel && products == []
    {
      this.barcodeModel := barcodeModel;
      products := [];
    }

    /** `load_products`: replaces the records with those of the kept rows, in row order. */
    method LoadProducts(rows: seq<ProductRow>)
      modifies this
      ensures products == CatalogOf(barcodeModel.table, rows)
    {
      var records: seq<ProductRecord> := [];
      for i := 0 to |rows|
        invariant records == CatalogOf(barcodeModel.table, rows[..i])
      {
        CatalogStep(barcodeModel.table, rows, i);
        var name := Strip(rows[i].product);
        var price := rows[i].price;
        if |name| < PrefixLength || price.None? {
          continue;
        }
        var prefix := Upper(name[..PrefixLength]);
        var encoded := barcodeModel.EncodeString(prefix, false);
        if encoded.Failure? {
          // the missing-column failure is caught and the row skipped
          continue;
        }
        assert encoded.value == Encoding(barcodeModel.table, prefix);
        records := records + [RecordOf(barcodeModel.table, rows[i])];
      }
      assert rows[..|rows|] == rows;
      products := records;
    }
  }
}
