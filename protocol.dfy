/**
 * The request/response exchange shared by both barcode servers: the client
 * sends a barcode, the server reads at most 1024 characters, trims them,
 * looks the code up among the product records and answers with the product
 * and its price, or with a one-entry error object.
 */
module Protocol {
  import opened Wrappers
  import opened Text
  import opened Barcode
  import opened Catalog

  /** The most the server reads from a connection. */
  const ReadLimit := 1024

  /** The JSON object a server sends back. */
  datatype Reply =
    | Found(product: string, price: real)   // {"Product": name, "Price": price}
    | Refusal(key: string, message: string) // {key: message}

  /** `key in reply` */
  predicate HasKey(reply: Reply, key: string)
  {
    match reply
    case Found(_, _) => key == "Product" || key == "Price"
    case Refusal(k, _) => key == k
  }

  /**
   * What one connection to the server produces: a reply, or nothing at all
   * when the lookup raised (an empty product table has no encoding column),
   * in which case the handler logs the error and writes nothing.
   */
  datatype Outcome = Responded(reply: Reply) | Faulted

  /** The code the server looks up for the bytes it received. */
  function Received(data: string): string
  {
    Strip(Take(data, ReadLimit))
  }

  /**
   * `handle_client`: the product of the first record whose encoding is the
   * received code; an error object under `errorKey` when none is; a fault
   * when the product table is empty.
   */
  function Resolve(products: seq<ProductRecord>, data: string, errorKey: string): (o: Outcome)
    ensures o.Faulted? <==> products == []
    ensures o.Responded? && o.reply.Found? ==>
              exists k :: 0 <= k < |products| && products[k].encoding == Received(data)
                          && o.reply == Found(products[k].name, products[k].price)
    ensures o.Responded? && o.reply.Refusal? ==>
              o.reply == Refusal(errorKey, "Invalid barcode")
              && forall k :: 0 <= k < |products| ==> products[k].encoding != Received(data)
  {
    match DecodeProduct(products, Received(data))
    case NoEncodingColumn => Faulted
    case Hit(rec) => Responded(Found(rec.name, rec.price))
    case Miss => Responded(Refusal(errorKey, "Invalid barcode"))
  }

  /**
   * Sending the stored encoding of a record (whitespace-free and within the
   * read limit) gets back the first record stored under that encoding: the
   * record itself unless an earlier one has the same encoding.
   */
  lemma ResolveStored(products: seq<ProductRecord>, k: nat, errorKey: string)
    requires k < |products|
    requires |products[k].encoding| <= ReadLimit
    requires forall i :: 0 <= i < |products[k].encoding| ==> !IsSpace(products[k].encoding[i])
    requires forall j :: 0 <= j < k ==> products[j].encoding != products[k].encoding
    ensures Resolve(products, products[k].encoding, errorKey) == Responded(Found(products[k].name, products[k].price))
  {
    var e := products[k].encoding;
    StripKeeps(e);
    assert Received(e) == e;
    var r := DecodeProduct(products, e);
    assert !r.Miss? && !r.NoEncodingColumn?;
    var j :| 0 <= j < |products| && products[j] == r.record && products[j].encoding == e
             && forall i :: 0 <= i < j ==> products[i].encoding != e;
    assert !(j < k) && !(k < j);
  }

  /** Whitespace around the code, within the read limit, does not change the answer. */
  lemma ResolvePadding(products: seq<ProductRecord>, a: string, code: string, b: string, errorKey: string)
    requires AllSpace(a) && AllSpace(b) && |a + code + b| <= ReadLimit
    ensures Resolve(products, a + code + b, errorKey) == Resolve(products, code, errorKey)
  {
    StripPadding(a, code, b);
  }

  /** Only the first 1024 characters of a request matter. */
  lemma ResolveReadLimit(products: seq<ProductRecord>, data: string, errorKey: string)
    requires |data| > ReadLimit
    ensures Resolve(products, data, errorKey) == Resolve(products, data[..ReadLimit], errorKey)
  {
    assert Take(data, ReadLimit) == data[..ReadLimit] == Take(data[..ReadLimit], ReadLimit);
  }

  /**
   * What a client sees of one round trip: the reply read and parsed;
   * a failure to connect, send, read or parse (a server that wrote nothing
   * sends no JSON); or a reply read and parsed followed by a failure while
   * closing the connection.
   */
  datatype Exchange = Delivered(reply: Reply) | Failed | FailedOnClose(reply: Reply)

  /** The exchange seen over a reliable connection to a server with this outcome. */
  function Reliable(o: Outcome): (ex: Exchange)
    ensures ex.Delivered? <==> o.Responded?
    ensures ex.Delivered? ==> ex.reply == o.reply
    ensures o.Faulted? ==> ex == Failed
  {
    match o
    case Responded(r) => Delivered(r)
    case Faulted => Failed
  }
}
