/**
 * Carts and receipts (`Cart`): the cart file is split into carts of
 * comma-separated barcode tokens, and each cart becomes a receipt that lists
 * the products found, flags the codes not found, and totals the prices found.
 */
module Receipts {
  import opened Wrappers
  import opened Text
  import opened Catalog

  /** The line that separates two carts in the cart file. */
  const CartBreak := "---CART BREAK---"

  /** The only token width looked up: five characters of nine-element digests. */
  const CodeWidth := 45

  datatype Line =
    | Item(name: string, price: real)  // a product found, with its price
    | Unknown(code: string)            // "[Unknown Product]" at 0.00 and the unrecognized code
    | Invalid(code: string)            // "[Invalid Product]" at 0.00 and the barcode sent (client side)

  datatype Receipt = Receipt(cart: nat, lines: seq<Line>, total: real)

  /** The running state of one receipt: its lines so far and its total. */
  datatype Tally = Tally(lines: seq<Line>, total: real)

  /** The trimmed, non-blank pieces of a split, in order. */
  function NonBlank(pieces: seq<string>): (segs: seq<string>)
    ensures forall k :: 0 <= k < |segs| ==> segs[k] != "" && exists i :: 0 <= i < |pieces| && segs[k] == Strip(pieces[i])
  {
    if pieces == [] then []
    else
      var rest := NonBlank(pieces[1..]);
      assert forall k :: 0 <= k < |rest| ==> exists i :: 0 <= i < |pieces| && rest[k] == Strip(pieces[i]) by {
        forall k | 0 <= k < |rest| ensures exists i :: 0 <= i < |pieces| && rest[k] == Strip(pieces[i]) {
          var i :| 0 <= i < |pieces[1..]| && rest[k] == Strip(pieces[1..][i]);
          assert pieces[i + 1] == pieces[1..][i];
        }
      }
      (if Strip(pieces[0]) != "" then [Strip(pieces[0])] else []) + rest
  }

  /** The text of each cart: the cart file split at the break line, trimmed, blank pieces dropped. */
  function Segments(raw: string): seq<string>
  {
    NonBlank(Split(raw, CartBreak))
  }

  /**
   * Splitting a concatenation of pieces keeps the kept pieces of each part in
   * order: nothing is dropped, reordered or merged across the boundary.
   */
  lemma {:induction false} NonBlankAppend(a: seq<string>, b: seq<string>)
    ensures NonBlank(a + b) == NonBlank(a) + NonBlank(b)
  {
    if a == [] {
      assert a + b == b;
    } else {
      var rest := a[1..];
      var head := if Strip(a[0]) != "" then [Strip(a[0])] else [];
      calc {
        NonBlank(a + b);
        == { assert a + b == [a[0]] + (rest + b); NonBlankCons(a[0], rest + b); }
        head + NonBlank(rest + b);
        == { NonBlankAppend(rest, b); }
        head + (NonBlank(rest) + NonBlank(b));
        (head + NonBlank(rest)) + NonBlank(b);
        == { assert a == [a[0]] + rest; NonBlankCons(a[0], rest); }
        NonBlank(a) + NonBlank(b);
      }
    }
  }

  /** The kept pieces of a list are those of its head, then those of its tail. */
  lemma NonBlankCons(p: string, rest: seq<string>)
    ensures NonBlank([p] + rest) == (if Strip(p) != "" then [Strip(p)] else []) + NonBlank(rest)
  {
    assert ([p] + rest)[0] == p;
    assert ([p] + rest)[1..] == rest;
  }

  /** A single piece is kept, stripped, exactly when it is not blank. */
  lemma NonBlankSingle(p: string)
    ensures NonBlank([p]) == if Strip(p) == "" then [] else [Strip(p)]
  {
    assert [p][1..] == [];
  }

  /**
   * `load_carts`: one cart per non-blank piece of the file between break
   * lines, in file order; joining a cart's tokens with commas gives its piece
   * back.
   */
  function ParseCarts(raw: string): (carts: seq<seq<string>>)
    ensures |carts| == |Segments(raw)|
    ensures forall k :: 0 <= k < |carts| ==> Join(",", carts[k]) == Segments(raw)[k]
  {
    var segs := Segments(raw);
    var carts := seq(|segs|, k requires 0 <= k < |segs| => Split(segs[k], ","));
    assert forall k :: 0 <= k < |carts| ==> Join(",", carts[k]) == segs[k] by {
      forall k | 0 <= k < |carts| ensures Join(",", carts[k]) == segs[k] {
        JoinSplit(segs[k], ",");
      }
    }
    carts
  }

  /** Every piece a cart comes from is non-blank and holds no break line. */
  lemma SegmentsFree(raw: string)
    ensures forall k :: 0 <= k < |Segments(raw)| ==>
              Segments(raw)[k] != "" && !Contains(Segments(raw)[k], CartBreak)
  {
    var pieces := Split(raw, CartBreak);
    var segs := Segments(raw);
    SplitPiecesFree(raw, CartBreak);
    forall k | 0 <= k < |segs|
      ensures !Contains(segs[k], CartBreak)
    {
      var i :| 0 <= i < |pieces| && segs[k] == Strip(pieces[i]);
      StripFree(pieces[i], CartBreak);
    }
  }

  /** A token is looked up when it is exactly 45 characters long once trimmed. */
  predicate Scannable(token: string)
  {
    |Strip(token)| == CodeWidth
  }

  /** The receipt line for a trimmed code: the product when found under a non-empty name, else an unknown line. */
  function LineFor(products: seq<ProductRecord>, code: string): Line
  {
    match DecodeProduct(products, code)
    case Hit(rec) => if rec.name != "" then Item(rec.name, rec.price) else Unknown(code)
    case _ => Unknown(code)
  }

  function LinePrice(line: Line): real
  {
    if line.Item? then line.price else 0.0
  }

  /** The receipt of one cart built token by token, skipping tokens that are not 45 characters wide. */
  function TallyOf(products: seq<ProductRecord>, cart: seq<string>): Tally
  {
    if cart == [] then Tally([], 0.0)
    else
      var t := TallyOf(products, cart[..|cart| - 1]);
      var code := Strip(cart[|cart| - 1]);
      if |code| != CodeWidth then t
      else
        var line := LineFor(products, code);
        Tally(t.lines + [line], t.total + LinePrice(line))
  }

  /** The trimmed codes of a cart that are looked up, in cart order. */
  function Codes(cart: seq<string>): seq<string>
  {
    if cart == [] then []
    else (if Scannable(cart[0]) then [Strip(cart[0])] else []) + Codes(cart[1..])
  }

  /** The receipt lines of a list of trimmed codes, one per code, in order. */
  function LinesOf(products: seq<ProductRecord>, codes: seq<string>): (lines: seq<Line>)
    ensures |lines| == |codes|
    ensures forall k :: 0 <= k < |codes| ==> lines[k] == LineFor(products, codes[k])
  {
    if codes == [] then []
    else LinesOf(products, codes[..|codes| - 1]) + [LineFor(products, codes[|codes| - 1])]
  }

  /** The sum of the prices on a list of lines. */
  function Sum(lines: seq<Line>): real
  {
    if lines == [] then 0.0 else LinePrice(lines[0]) + Sum(lines[1..])
  }

  lemma {:induction false} SumAppend(a: seq<Line>, b: seq<Line>)
    ensures Sum(a + b) == Sum(a) + Sum(b)
    decreases |a|
  {
    if a == [] {
      assert a + b == b;
    } else {
      assert (a + b)[1..] == a[1..] + b;
      SumAppend(a[1..], b);
    }
  }

  lemma {:induction false} CodesAppend(a: seq<string>, b: seq<string>)
    ensures Codes(a + b) == Codes(a) + Codes(b)
    decreases |a|
  {
    if a == [] {
      assert a + b == b;
    } else {
      assert (a + b)[1..] == a[1..] + b;
      CodesAppend(a[1..], b);
    }
  }

  /** One more token either leaves the receipt as it was or adds the line for its trimmed code. */
  lemma TallyStep(products: seq<ProductRecord>, cart: seq<string>, i: nat)
    requires i < |cart|
    ensures TallyOf(products, cart[..i + 1])
            == if Scannable(cart[i]) then
                 var t := TallyOf(products, cart[..i]);
                 var line := LineFor(products, Strip(cart[i]));
                 Tally(t.lines + [line], t.total + LinePrice(line))
               else TallyOf(products, cart[..i])
  {
    assert cart[..i + 1][..i] == cart[..i];
  }

  /**
   * A receipt has exactly one line per looked-up code, in cart order: the
   * product when found, an unknown line carrying the code otherwise.
   */
  lemma {:induction false} TallyLines(products: seq<ProductRecord>, cart: seq<string>)
    ensures TallyOf(products, cart).lines == LinesOf(products, Codes(cart))
    decreases |cart|
  {
    if cart != [] {
      var init, last := cart[..|cart| - 1], cart[|cart| - 1];
      TallyLines(products, init);
      assert cart == init + [last];
      CodesAppend(init, [last]);
      if Scannable(last) {
        var codes := Codes(init) + [Strip(last)];
        assert Codes(cart) == codes;
        assert codes[..|codes| - 1] == Codes(init);
      } else {
        assert Codes(cart) == Codes(init) + [];
      }
    }
  }

  /** A receipt's total is the sum of the prices on its lines. */
  lemma {:induction false} TallyTotal(products: seq<ProductRecord>, cart: seq<string>)
    ensures TallyOf(products, cart).total == Sum(TallyOf(products, cart).lines)
    decreases |cart|
  {
    if cart != [] {
      var init := cart[..|cart| - 1];
      TallyTotal(products, init);
      var t := TallyOf(products, init);
      if Scannable(cart[|cart| - 1]) {
        SumAppend(t.lines, [LineFor(products, Strip(cart[|cart| - 1]))]);
      }
    }
  }

  /** Looking codes up fails outright when the catalog is empty and some token is 45 wide. */
  predicate Raises(products: seq<ProductRecord>, cart: seq<string>)
  {
    products == [] && exists i :: 0 <= i < |cart| && Scannable(cart[i])
  }

  /** The first cart whose receipt cannot be built, or the number of carts when there is none. */
  function FirstRaising(products: seq<ProductRecord>, carts: seq<seq<string>>): (k: nat)
    ensures k <= |carts|
    ensures forall j :: 0 <= j < k ==> !Raises(products, carts[j])
    ensures k < |carts| ==> Raises(products, carts[k])
  {
    if carts == [] then 0
    else if Raises(products, carts[0]) then 0
    else 1 + FirstRaising(products, carts[1..])
  }

  function MakeReceipt(products: seq<ProductRecord>, index: nat, cart: seq<string>): Receipt
  {
    var t := TallyOf(products, cart);
    Receipt(index, t.lines, t.total)
  }

  /** One receipt per cart, numbered from 1, in cart order. */
  function ReceiptsOf(products: seq<ProductRecord>, carts: seq<seq<string>>): seq<Receipt>
  {
    seq(|carts|, k requires 0 <= k < |carts| => MakeReceipt(products, k + 1, carts[k]))
  }

  lemma FirstRaisingIs(products: seq<ProductRecord>, carts: seq<seq<string>>, i: nat)
    requires i <= |carts|
    requires forall j :: 0 <= j < i ==> !Raises(products, carts[j])
    requires i < |carts| ==> Raises(products, carts[i])
    ensures FirstRaising(products, carts) == i
  {
    var k := FirstRaising(products, carts);
    assert !(k < i) && !(i < k);
  }

  /** The carts loaded from the cart file and the receipts generated from them. */
  class Cart {
    const productModel: Product
    var carts: seq<seq<string>>
    var receipts: seq<Receipt>

    constructor(productModel: Product)
      ensures this.productModel == productModel && carts == [] && receipts == []
    {
      this.productModel := productModel;
      carts := [];
      receipts := [];
    }

    /** `load_carts`, with the file's text given. */
    method LoadCarts(raw: string)
      modifies this
      ensures carts == ParseCarts(raw) && receipts == old(receipts)
    {
      carts := ParseCarts(raw);
    }

    /**
     * `generate_receipts`: clears the old receipts, then emits one receipt per
     * cart in cart order.  With an empty catalog the lookup of the first
     * 45-wide token fails; the failure propagates and the receipts of the
     * carts before it stay.
     */
    method GenerateReceipts() returns (raised: bool)
      modifies this
      ensures carts == old(carts)
      ensures var k := FirstRaising(productModel.products, carts);
              raised == (k < |carts|) && receipts == ReceiptsOf(productModel.products, carts[..k])
    {
      var products := productModel.products;
      var cs := carts;
      var all: seq<Receipt> := [];
      for i := 0 to |cs|
        invariant all == ReceiptsOf(products, cs[..i])
        invariant forall k :: 0 <= k < i ==> !Raises(products, cs[k])
      {
        var cart := cs[i];
        var lines: seq<Line> := [];
        var total := 0.0;
        for j := 0 to |cart|
          invariant Tally(lines, total) == TallyOf(products, cart[..j])
          invariant !Raises(products, cart[..j])
        {
          assert cart[..j + 1][..j] == cart[..j];
          var code := Strip(cart[j]);
          if code == "" || |code| != CodeWidth {
            continue;
          }
          var found := DecodeProduct(products, code);
          if found.NoEncodingColumn? {
            assert Raises(products, cart) by {
              assert Scannable(cart[j]);
            }
            FirstRaisingIs(products, cs, i);
            receipts := all;
            return true;
          }
          if found.Hit? && found.record.name != "" {
            lines := lines + [Item(found.record.name, found.record.price)];
            total := total + found.record.price;
          } else {
            lines := lines + [Unknown(code)];
          }
        }
        assert cart[..|cart|] == cart;
        assert !Raises(products, cs[i]);
        all := all + [Receipt(i + 1, lines, total)];
        assert cs[..i + 1] == cs[..i] + [cs[i]];
      }
      FirstRaisingIs(products, cs, |cs|);
      assert cs[..|cs|] == cs;
      receipts := all;
      return false;
    }
  }
}
