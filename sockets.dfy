/**
 * The streaming client of `sockets.py`: every non-blank cell of the cart
 * table is sent to the barcode server on its own connection; the break line
 * logs and resets the running cart total, and each product the server finds
 * adds its price.
 */
module Sockets {
  import opened Text
  import opened Catalog
  import opened Receipts
  import opened Protocol

  /** The key of this server's error objects. */
  const ErrorKey := "error"

  /** `BarcodeServer.handle_client` of `sockets.py`. */
  function HandleClient(products: seq<ProductRecord>, data: string): (o: Outcome)
    ensures o.Faulted? <==> products == []
    ensures o.Responded? ==>
              (o.reply.Found? <==> exists k :: 0 <= k < |products| && products[k].encoding == Received(data))
    ensures o.Responded? && o.reply.Found? ==>
              exists k :: 0 <= k < |products| && products[k].encoding == Received(data)
                          && (forall j :: 0 <= j < k ==> products[j].encoding != Received(data))
                          && o.reply == Found(products[k].name, products[k].price)
    ensures o.Responded? && o.reply.Refusal? ==> o.reply == Refusal(ErrorKey, "Invalid barcode")
  {
    Resolve(products, data, ErrorKey)
  }

  /** `send_barcode`: the reply read, or this client's own error object when anything failed. */
  function SendBarcode(ex: Exchange): (r: Reply)
    ensures ex.Delivered? ==> r == ex.reply
    ensures !ex.Delivered? ==> r == Refusal(ErrorKey, "Connection failed")
    ensures Understood(ex) && r.Refusal? ==> r.key == ErrorKey
  {
    if ex.Delivered? then ex.reply else Refusal(ErrorKey, "Connection failed")
  }

  /**
   * A delivered reply this client can read: a product, or an object under
   * the error key (any other object makes it index a missing key and stop).
   */
  predicate Understood(ex: Exchange)
  {
    ex.Delivered? && ex.reply.Refusal? ==> ex.reply.key == ErrorKey
  }

  /**
   * Over a reliable connection the client reads what this server answers:
   * the first record stored under the trimmed code, an invalid-barcode error
   * when there is none, and a connection failure when the server wrote
   * nothing because its product table is empty.
   */
  lemma ReliableReply(products: seq<ProductRecord>, item: string)
    ensures Understood(Reliable(HandleClient(products, item)))
    ensures var r := SendBarcode(Reliable(HandleClient(products, item)));
            (products == [] ==> r == Refusal(ErrorKey, "Connection failed"))
            && (products != [] && r.Refusal? ==>
                  r == Refusal(ErrorKey, "Invalid barcode")
                  && (forall k :: 0 <= k < |products| ==> products[k].encoding != Received(item)))
            && (r.Found? ==>
                  exists k :: 0 <= k < |products| && products[k].encoding == Received(item)
                              && r == Found(products[k].name, products[k].price))
  {
  }

  /** What the client logs. */
  datatype Event =
    | Priced(item: string, name: string, price: real)  // "<item> => <name>: $<price>"
    | Warned(item: string, message: string)            // "<item> => ERROR: <message>"
    | CartClosed(total: real)                          // "CART BREAK - Cart total: $<total>"

  /** The log so far and the running cart total. */
  datatype Session = Session(events: seq<Event>, total: real)

  /** Cells that are blank or spell "nan" once trimmed are not sent. */
  predicate Skipped(cell: string)
  {
    Strip(cell) == "" || Lower(Strip(cell)) == "nan"
  }

  /** One cell of the cart table. */
  function Step(s: Session, cell: string, net: string -> Exchange): Session
    requires Understood(net(Strip(cell)))
  {
    var item := Strip(cell);
    if Skipped(cell) then s
    else if item == CartBreak then Session(s.events + [CartClosed(s.total)], 0.0)
    else
      match SendBarcode(net(item))
      case Found(name, price) => Session(s.events + [Priced(item, name, price)], s.total + price)
      case Refusal(_, message) => Session(s.events + [Warned(item, message)], s.total)
  }

  /** The session after the cells, in order, starting from an empty log and a zero total. */
  function ClientSession(cells: seq<string>, net: string -> Exchange): Session
    requires forall s :: Understood(net(s))
  {
    if cells == [] then Session([], 0.0)
    else Step(ClientSession(cells[..|cells| - 1], net), cells[|cells| - 1], net)
  }

  /** The cells of the table, row by row. */
  function Flatten(rows: seq<seq<string>>): seq<string>
  {
    if rows == [] then [] else Flatten(rows[..|rows| - 1]) + rows[|rows| - 1]
  }

  /** The sum of the prices logged since the last cart break. */
  function SinceBreak(events: seq<Event>): real
  {
    if events == [] then 0.0
    else
      match events[|events| - 1]
      case Priced(_, _, price) => SinceBreak(events[..|events| - 1]) + price
      case Warned(_, _) => SinceBreak(events[..|events| - 1])
      case CartClosed(_) => 0.0
  }

  /** The running total is what was priced since the last break, and each break logs the total of its cart. */
  predicate Balanced(s: Session)
  {
    s.total == SinceBreak(s.events)
    && forall k :: 0 <= k < |s.events| && s.events[k].CartClosed? ==> s.events[k].total == SinceBreak(s.events[..k])
  }

  lemma {:induction false} SessionBalanced(cells: seq<string>, net: string -> Exchange)
    requires forall s :: Understood(net(s))
    ensures Balanced(ClientSession(cells, net))
    decreases |cells|
  {
    if cells != [] {
      var prev := ClientSession(cells[..|cells| - 1], net);
      SessionBalanced(cells[..|cells| - 1], net);
      var next := ClientSession(cells, net);
      if next.events != prev.events {
        var n := |prev.events|;
        assert next.events == prev.events + [next.events[n]];
        assert next.events[..n] == prev.events;
        forall k | 0 <= k < n && next.events[k].CartClosed?
          ensures next.events[k].total == SinceBreak(next.events[..k])
        {
          assert next.events[..k] == prev.events[..k];
        }
      }
    }
  }

  /** The trimmed cells that are sent or break a cart, in order. */
  function Items(cells: seq<string>): seq<string>
  {
    if cells == [] then []
    else Items(cells[..|cells| - 1]) + (if Skipped(cells[|cells| - 1]) then [] else [Strip(cells[|cells| - 1])])
  }

  /** The item an event is about; the break line for a break. */
  function Subject(e: Event): string
  {
    if e.CartClosed? then CartBreak else e.item
  }

  /**
   * One log entry per item, in order: a break exactly for the break line,
   * and for every other item the reply the server gave for it.
   */
  lemma {:induction false} SessionEvents(cells: seq<string>, net: string -> Exchange)
    requires forall s :: Understood(net(s))
    ensures var events := ClientSession(cells, net).events;
            |events| == |Items(cells)|
            && forall k :: 0 <= k < |events| ==>
                 Subject(events[k]) == Items(cells)[k]
                 && (events[k].CartClosed? <==> Items(cells)[k] == CartBreak)
                 && (events[k].Priced? ==> SendBarcode(net(Items(cells)[k])) == Found(events[k].name, events[k].price))
                 && (events[k].Warned? ==> SendBarcode(net(Items(cells)[k])) == Refusal(ErrorKey, events[k].message))
    decreases |cells|
  {
    if cells != [] {
      SessionEvents(cells[..|cells| - 1], net);
    }
  }

  /**
   * With an empty product table the server answers nothing, so every item
   * other than the break line is logged as a connection failure and no cart
   * total ever grows.
   */
  lemma {:induction false} EmptyCatalogSession(products: seq<ProductRecord>, cells: seq<string>, net: string -> Exchange)
    requires products == []
    requires forall s :: net(s) == Reliable(HandleClient(products, s))
    ensures forall s :: Understood(net(s))
    ensures ClientSession(cells, net).total == 0.0
    ensures forall e :: e in ClientSession(cells, net).events ==> !e.Priced?
    decreases |cells|
  {
    if cells != [] {
      EmptyCatalogSession(products, cells[..|cells| - 1], net);
      ReliableReply(products, Strip(cells[|cells| - 1]));
    }
  }

  lemma SessionStep(cells: seq<string>, cell: string, net: string -> Exchange)
    requires forall s :: Understood(net(s))
    ensures ClientSession(cells + [cell], net) == Step(ClientSession(cells, net), cell, net)
  {
    assert (cells + [cell])[..|cells|] == cells;
  }

  lemma FlattenStep(rows: seq<seq<string>>, i: nat)
    requires i < |rows|
    ensures Flatten(rows[..i + 1]) == Flatten(rows[..i]) + rows[i]
  {
    assert rows[..i + 1][..i] == rows[..i];
  }

  /** One more cell of the current row is one more step of the session. */
  lemma RowStep(done: seq<string>, row: seq<string>, j: nat, net: string -> Exchange)
    requires forall s :: Understood(net(s))
    requires j < |row|
    ensures ClientSession(done + row[..j + 1], net) == Step(ClientSession(done + row[..j], net), row[j], net)
  {
    assert done + row[..j + 1] == (done + row[..j]) + [row[j]];
    SessionStep(done + row[..j], row[j], net);
  }

  /** The whole current row ends the cells of the rows so far. */
  lemma RowDone(rows: seq<seq<string>>, i: nat)
    requires i < |rows|
    ensures Flatten(rows[..i]) + rows[i][..|rows[i]|] == Flatten(rows[..i + 1])
    ensures Flatten(rows[..i]) + rows[i][..0] == Flatten(rows[..i])
  {
    FlattenStep(rows, i);
    assert rows[i][..|rows[i]|] == rows[i];
    assert Flatten(rows[..i]) + rows[i][..0] == Flatten(rows[..i]);
  }

  /** The body of `run_client`'s inner loop: one cell logged, the running total updated. */
  method LogCell(events: seq<Event>, total: real, cell: string, net: string -> Exchange)
    returns (events': seq<Event>, total': real)
    requires Understood(net(Strip(cell)))
    ensures Session(events', total') == Step(Session(events, total), cell, net)
  {
    events', total' := events, total;
    var item := Strip(cell);
    if item == "" || Lower(item) == "nan" {
      return;
    }
    if item == CartBreak {
      events' := events + [CartClosed(total)];
      total' := 0.0;
      return;
    }
    var response := SendBarcode(net(item));
    if HasKey(response, ErrorKey) {
      events' := events + [Warned(item, response.message)];
    } else {
      events' := events + [Priced(item, response.product, response.price)];
      total' := total + response.price;
    }
  }

  /** `run_client`, with the cart table's cells given as text, row by row. */
  method RunClient(rows: seq<seq<string>>, net: string -> Exchange) returns (events: seq<Event>, total: real)
    requires forall s :: Understood(net(s))
    ensures Session(events, total) == ClientSession(Flatten(rows), net)
  {
    events, total := [], 0.0;
    for i := 0 to |rows|
      invariant Session(events, total) == ClientSession(Flatten(rows[..i]), net)
    {
      RowDone(rows, i);
      ghost var done := Flatten(rows[..i]);
      var row := rows[i];
      for j := 0 to |row|
        invariant Session(events, total) == ClientSession(done + row[..j], net)
      {
        RowStep(done, row, j, net);
        events, total := LogCell(events, total, row[j], net);
      }
    }
    assert rows[..|rows|] == rows;
  }
}
