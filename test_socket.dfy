/**
 * The cart client of `test_socket.py`: each cart's 45-wide tokens are sent
 * one connection at a time, and the client builds each receipt from the
 * server's replies instead of looking the codes up itself.
 */
module TestSocket {
  import opened Text
  import opened Catalog
  import opened Receipts
  import opened Protocol

  /** The key of this server's error objects. */
  const ErrorKey := "Error"

  /** `BarcodeServer.handle_client` of `test_socket.py`. */
  function HandleClient(products: seq<ProductRecord>, data: string): (o: Outcome)
    ensures o.Faulted? <==> products == []
    ensures o.Responded? ==>
              (o.reply.Found? <==> exists k :: 0 <= k < |products| && products[k].encoding == Received(data))
    ensures o.Responded? && o.reply.Found? ==>
              exists k :: 0 <= k < |products| && products[k].encoding == Received(data)
                          && (forall j :: 0 <= j < k ==> products[j].encoding != Received(data))
                          && o.reply == Found(products[k].name, products[k].price)
    ensures o.Responded? && o.reply.Refusal? ==> o.reply == Refusal(ErrorKey, "Invalid barcode")
  {
    Resolve(products, data, ErrorKey)
  }

  /** The error object the client records for a failed connection. */
  const ConnectionError := Refusal(ErrorKey, "Connection error")

  /**
   * What `send_cart` records for one code: the reply when it was read; the
   * connection error when connecting, sending, reading or parsing failed;
   * both, in that order, when only closing the connection failed.
   */
  function Recorded(code: string, ex: Exchange): (rs: seq<(string, Reply)>)
    ensures 1 <= |rs| <= 2 && forall k :: 0 <= k < |rs| ==> rs[k].0 == code
    ensures rs[|rs| - 1].1 == ConnectionError <==> !ex.Delivered? || ex.reply == ConnectionError
    ensures ex.Delivered? || ex.FailedOnClose? ==> rs[0].1 == ex.reply
  {
    match ex
    case Delivered(r) => [(code, r)]
    case Failed => [(code, ConnectionError)]
    case FailedOnClose(r) => [(code, r), (code, ConnectionError)]
  }

  /** The results `send_cart` returns for a cart: the untrimmed 45-wide tokens, in cart order. */
  function CartResults(cart: seq<string>, net: string -> Exchange): seq<(string, Reply)>
  {
    if cart == [] then []
    else
      var code := cart[|cart| - 1];
      CartResults(cart[..|cart| - 1], net) + (if Scannable(code) then Recorded(code, net(code)) else [])
  }

  /** Every 45-wide token gets one result, and a second one only when closing its connection failed. */
  lemma {:induction false} CartResultsCount(cart: seq<string>, net: string -> Exchange)
    ensures |CartResults(cart, net)| == |Codes(cart)| + |Closings(cart, net)|
    decreases |cart|
  {
    if cart != [] {
      var init, last := cart[..|cart| - 1], cart[|cart| - 1];
      CartResultsCount(init, net);
      assert cart == init + [last];
      CodesAppend(init, [last]);
      assert Codes([last]) == (if Scannable(last) then [Strip(last)] else []);
    }
  }

  /** The 45-wide tokens whose connection failed while closing. */
  function Closings(cart: seq<string>, net: string -> Exchange): seq<string>
  {
    if cart == [] then []
    else
      var code := cart[|cart| - 1];
      Closings(cart[..|cart| - 1], net) + (if Scannable(code) && net(code).FailedOnClose? then [code] else [])
  }

  /**
   * Every result carries an untrimmed 45-wide token of the cart, and a reply
   * from the network or the client's own connection error.
   */
  lemma {:induction false} ResultsFromNet(cart: seq<string>, net: string -> Exchange)
    ensures forall k :: 0 <= k < |CartResults(cart, net)| ==>
              var (code, r) := CartResults(cart, net)[k];
              code in cart && Scannable(code)
              && (r == ConnectionError || (!net(code).Failed? && r == net(code).reply))
    decreases |cart|
  {
    if cart != [] {
      var init := cart[..|cart| - 1];
      ResultsFromNet(init, net);
      assert forall c :: c in init ==> c in cart;
    }
  }

  /** `send_cart`. */
  method SendCart(cart: seq<string>, net: string -> Exchange) returns (results: seq<(string, Reply)>)
    ensures results == CartResults(cart, net)
  {
    results := [];
    for i := 0 to |cart|
      invariant results == CartResults(cart[..i], net)
    {
      assert cart[..i + 1][..i] == cart[..i];
      var code := cart[i];
      if Strip(code) == "" || |Strip(code)| != CodeWidth {
        continue;
      }
      match net(code)
      case Delivered(r) =>
        results := results + [(code, r)];
      case Failed =>
        results := results + [(code, ConnectionError)];
      case FailedOnClose(r) =>
        results := results + [(code, r)];
        results := results + [(code, ConnectionError)];
    }
    assert cart[..|cart|] == cart;
  }

  /** A reply this client can read: one with a product key always has a price. */
  predicate Understood(r: Reply)
  {
    !(r.Refusal? && r.key == "Product")
  }

  ghost predicate NetUnderstood(net: string -> Exchange)
  {
    forall s :: !net(s).Failed? ==> Understood(net(s).reply)
  }

  /** The receipt line for one result: the product when the reply names one, else an invalid line with the barcode sent. */
  function ClientLine(result: (string, Reply)): Line
  {
    if result.1.Found? then Item(result.1.product, result.1.price) else Invalid(result.0)
  }

  /** The receipt lines and total `run_main` builds from a cart's results, in order. */
  function ClientTally(results: seq<(string, Reply)>): Tally
  {
    if results == [] then Tally([], 0.0)
    else
      var t := ClientTally(results[..|results| - 1]);
      var line := ClientLine(results[|results| - 1]);
      Tally(t.lines + [line], t.total + LinePrice(line))
  }

  /** The client's receipt lines are its results, one line each, and its total is the sum of their prices. */
  lemma {:induction false} ClientTallySpec(results: seq<(string, Reply)>)
    ensures |ClientTally(results).lines| == |results|
    ensures forall k :: 0 <= k < |results| ==> ClientTally(results).lines[k] == ClientLine(results[k])
    ensures ClientTally(results).total == Sum(ClientTally(results).lines)
    decreases |results|
  {
    if results != [] {
      var init := results[..|results| - 1];
      ClientTallySpec(init);
      var t := ClientTally(init);
      SumAppend(t.lines, [ClientLine(results[|results| - 1])]);
    }
  }

  function ClientReceipt(index: nat, results: seq<(string, Reply)>): Receipt
  {
    var t := ClientTally(results);
    Receipt(index, t.lines, t.total)
  }

  /** The receipts of `run_main`, numbered from 1 in cart order. */
  function OnlineReceipts(carts: seq<seq<string>>, net: string -> Exchange): seq<Receipt>
  {
    seq(|carts|, k requires 0 <= k < |carts| => ClientReceipt(k + 1, CartResults(carts[k], net)))
  }

  /** `run_main`, with the loaded carts and the network given. */
  method RunMain(carts: seq<seq<string>>, net: string -> Exchange) returns (receipts: seq<Receipt>)
    requires NetUnderstood(net)
    ensures receipts == OnlineReceipts(carts, net)
  {
    receipts := [];
    for i := 0 to |carts|
      invariant receipts == OnlineReceipts(carts[..i], net)
    {
      var results := SendCart(carts[i], net);
      ResultsFromNet(carts[i], net);
      var lines: seq<Line> := [];
      var total := 0.0;
      for j := 0 to |results|
        invariant Tally(lines, total) == ClientTally(results[..j])
      {
        assert results[..j + 1][..j] == results[..j];
        var (code, result) := results[j];
        if HasKey(result, "Product") {
          lines := lines + [Item(result.product, result.price)];
          total := total + result.price;
        } else {
          lines := lines + [Invalid(code)];
        }
      }
      assert results[..|results|] == results;
      receipts := receipts + [Receipt(i + 1, lines, total)];
      assert carts[..i + 1][..i] == carts[..i];
    }
    assert carts[..|carts|] == carts;
  }

  /** A client line and the line the offline receipt has for the same token. */
  predicate Corresponds(online: Line, offline: Line)
  {
    (online.Item? && online == offline)
    || (online.Invalid? && offline.Unknown? && Strip(online.code) == offline.code)
  }

  /** One 45-wide token within the read limit, sent over a reliable connection. */
  lemma TokenMatches(products: seq<ProductRecord>, code: string, net: string -> Exchange)
    requires products != [] && forall k :: 0 <= k < |products| ==> products[k].name != ""
    requires Scannable(code) && |code| <= ReadLimit
    requires forall s :: net(s) == Reliable(HandleClient(products, s))
    ensures net(code).Delivered?
    ensures Corresponds(ClientLine((code, net(code).reply)), LineFor(products, Strip(code)))
    ensures LinePrice(ClientLine((code, net(code).reply))) == LinePrice(LineFor(products, Strip(code)))
  {
    assert Received(code) == Strip(code);
  }

  /** Appending one result adds its line to the client's receipt. */
  lemma ClientTallyAppend(results: seq<(string, Reply)>, r: (string, Reply))
    ensures ClientTally(results + [r])
            == Tally(ClientTally(results).lines + [ClientLine(r)], ClientTally(results).total + LinePrice(ClientLine(r)))
  {
    assert (results + [r])[..|results|] == results;
  }

  /**
   * Over a reliable connection to a server with products, all named, and
   * with every token within the read limit, the client's receipt has a line
   * for each line of the offline receipt, for the same product or the same
   * unknown code, and the same total.
   */
  lemma {:induction false} OnlineMatchesOffline(products: seq<ProductRecord>, cart: seq<string>, net: string -> Exchange)
    requires products != [] && forall k :: 0 <= k < |products| ==> products[k].name != ""
    requires forall t :: t in cart ==> |t| <= ReadLimit
    requires forall s :: net(s) == Reliable(HandleClient(products, s))
    ensures var online := ClientTally(CartResults(cart, net));
            var offline := TallyOf(products, cart);
            |online.lines| == |offline.lines| && online.total == offline.total
            && forall k :: 0 <= k < |online.lines| ==> Corresponds(online.lines[k], offline.lines[k])
    decreases |cart|
  {
    if cart != [] {
      var init, code := cart[..|cart| - 1], cart[|cart| - 1];
      assert forall t :: t in init ==> t in cart;
      OnlineMatchesOffline(products, init, net);
      if Scannable(code) {
        TokenMatches(products, code, net);
        var results := CartResults(init, net);
        var reply := net(code).reply;
        assert CartResults(cart, net) == results + [(code, reply)];
        ClientTallyAppend(results, (code, reply));
        var t := TallyOf(products, init);
        var line := LineFor(products, Strip(code));
        assert TallyOf(products, cart) == Tally(t.lines + [line], t.total + LinePrice(line));
        var online := ClientTally(CartResults(cart, net));
        forall k | 0 <= k < |online.lines|
          ensures Corresponds(online.lines[k], TallyOf(products, cart).lines[k])
        {
          if k < |t.lines| {
            assert online.lines[k] == ClientTally(results).lines[k];
          }
        }
      } else {
        assert CartResults(init, net) + [] == CartResults(init, net);
        assert CartResults(cart, net) == CartResults(init, net);
        assert TallyOf(products, cart) == TallyOf(products, init);
      }
    }
  }

  /**
   * With an empty product table the server writes nothing, so every 45-wide
   * token is recorded as a connection error and appears as an invalid line,
   * and the total is zero (where the offline receipts stop at the first such
   * token instead).
   */
  lemma {:induction false} EmptyCatalogOnline(cart: seq<string>, net: string -> Exchange)
    requires forall s :: net(s) == Reliable(HandleClient([], s))
    ensures |CartResults(cart, net)| == |Raw(cart)|
    ensures forall k :: 0 <= k < |Raw(cart)| ==> CartResults(cart, net)[k] == (Raw(cart)[k], ConnectionError)
    ensures ClientTally(CartResults(cart, net)).total == 0.0
    decreases |cart|
  {
    if cart != [] {
      var init, last := cart[..|cart| - 1], cart[|cart| - 1];
      EmptyCatalogOnline(init, net);
      var results := CartResults(init, net);
      if Scannable(last) {
        assert net(last) == Failed;
        assert CartResults(cart, net) == results + [(last, ConnectionError)];
        assert Raw(cart) == Raw(init) + [last];
        ClientTallyAppend(results, (last, ConnectionError));
        assert ClientLine((last, ConnectionError)) == Invalid(last);
      } else {
        assert results + [] == results;
        assert CartResults(cart, net) == results;
        assert Raw(init) + [] == Raw(init);
        assert Raw(cart) == Raw(init);
      }
    }
  }

  /** The 45-wide tokens of a cart as they were written, in cart order. */
  function Raw(cart: seq<string>): seq<string>
  {
    if cart == [] then []
    else Raw(cart[..|cart| - 1]) + (if Scannable(cart[|cart| - 1]) then [cart[|cart| - 1]] else [])
  }
}
