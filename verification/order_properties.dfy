/**
 * Properties of placing an order from the web cart page, and of what the server does
 * with the ids the page sends.
 */
module OrderProperties {
  import opened Wrappers
  import opened ItemStore
  import opened Cart
  import opened CartPage
  import CartProperties
  import ItemsController

  /** The lines no longer flagged available, in cart order. */
  function UnavailableLines(cart: CartLines): CartLines
    decreases |cart|
  {
    if |cart| == 0 then []
    else if cart[0].available then UnavailableLines(cart[1..])
    else [cart[0]] + UnavailableLines(cart[1..])
  }

  /** Filtering to available lines distributes over concatenation, so it keeps the
      cart's order. */
  lemma {:induction false} AvailableLinesAppend(a: CartLines, b: CartLines)
    ensures AvailableLines(a + b) == AvailableLines(a) + AvailableLines(b)
    decreases |a|
  {
    if |a| == 0 {
      assert a + b == b;
    } else {
      assert (a + b)[1..] == a[1..] + b;
      AvailableLinesAppend(a[1..], b);
    }
  }

  /** The ordered lines are exactly the cart's available lines: nothing else gets in,
      and no available line is dropped. */
  lemma {:induction false} AvailableLinesMembers(cart: CartLines, l: Line)
    ensures l in AvailableLines(cart) <==> l in cart && l.available
    decreases |cart|
  {
    if |cart| > 0 {
      AvailableLinesMembers(cart[1..], l);
      assert cart == [cart[0]] + cart[1..];
    }
  }

  /** Every line is either ordered or dropped, so the cart's total splits between the
      two, and the receipt total (the whole cart's) can exceed what is ordered. */
  lemma {:induction false} TotalSplitsByAvailability(cart: CartLines)
    ensures TotalPrice(cart) == TotalPrice(AvailableLines(cart)) + TotalPrice(UnavailableLines(cart))
    decreases |cart|
  {
    if |cart| > 0 {
      var head, rest := [cart[0]], cart[1..];
      assert cart == head + rest;
      TotalSplitsByAvailability(rest);
      TotalPriceAppend(head, rest);
      TotalPriceAppend(head, AvailableLines(rest));
      TotalPriceAppend(head, UnavailableLines(rest));
    }
  }

  /** When every line is available nothing is dropped. */
  lemma {:induction false} AllAvailableKeepsEveryLine(cart: CartLines)
    requires CartProperties.AllAvailable(cart)
    ensures AvailableLines(cart) == cart
    ensures UnavailableLines(cart) == []
    decreases |cart|
  {
    if |cart| > 0 {
      AllAvailableKeepsEveryLine(cart[1..]);
      assert [cart[0]] + cart[1..] == cart;
    }
  }

  /** The sum of the receipt rows' subtotals. */
  function SumSubtotals(lines: seq<ReceiptLine>): int
    decreases |lines|
  {
    if |lines| == 0 then 0 else SumSubtotals(lines[..|lines| - 1]) + lines[|lines| - 1].subtotal
  }

  /** The receipt rows add up to the total of the ordered lines. */
  lemma {:induction false} ReceiptRowsSumToOrderTotal(lines: CartLines)
    ensures SumSubtotals(ReceiptLines(lines)) == TotalPrice(lines)
    decreases |lines|
  {
    if |lines| > 0 {
      var init := lines[..|lines| - 1];
      ReceiptRowsSumToOrderTotal(init);
      assert ReceiptLines(lines)[..|lines| - 1] == ReceiptLines(init);
    }
  }

  /** The mark-unavailable request's outcome changes only the toast: the same request
      goes out and WhatsApp is opened with the same receipt either way. */
  lemma HandOffDespiteMarkFailure(cart: CartLines, customer: Customer, m1: MarkOutcome, m2: MarkOutcome)
    ensures PlaceOrder(cart, customer, m1).Placed? <==> PlaceOrder(cart, customer, m2).Placed?
    ensures PlaceOrder(cart, customer, m1).Placed? ==>
              PlaceOrder(cart, customer, m1).effects == PlaceOrder(cart, customer, m2).effects
  {
  }

  /** On a cart built by the page's own operations from an empty one, every line is
      available: the filter drops nothing, the ids sent are those of the whole cart
      (each once), the receipt rows add up to the receipt total, and the "no available
      items" refusal cannot happen. */
  lemma BuiltCartOrdersEverything(ops: seq<CartProperties.CartOp>, customer: Customer, mark: MarkOutcome)
    ensures var cart := CartProperties.ApplyOps([], ops);
            var d := PlaceOrder(cart, customer, mark);
            && (d.Placed? <==> |cart| > 0 && !MissingDetails(customer))
            && (d.Placed? ==>
                  && d.effects[0] == MarkUnavailable(Ids(cart))
                  && SumSubtotals(d.effects[1].receipt.lines) == d.effects[1].receipt.total)
            && (forall i, j :: 0 <= i < |cart| && 0 <= j < |cart| && Ids(cart)[i] == Ids(cart)[j] ==> i == j)
  {
    var cart := CartProperties.ApplyOps([], ops);
    CartProperties.ApplyOpsKeepsValid([], ops);
    AllAvailableKeepsEveryLine(cart);
    var d := PlaceOrder(cart, customer, mark);
    if d.Placed? {
      assert d.effects[1].receipt.lines == ReceiptLines(cart);
      assert d.effects[1].receipt.total == TotalPrice(cart);
      ReceiptRowsSumToOrderTotal(cart);
    }
    var ids := Ids(cart);
    assert UniqueIds(cart);
    forall i, j | 0 <= i < |cart| && 0 <= j < |cart| && ids[i] == ids[j] ensures i == j {
      assert cart[i].id == cart[j].id;
    }
  }

  /** When the server handles the ids the page sends, every ordered item it holds drops
      off the end-user listing, keeps all its other fields, and every record that was
      not ordered is left as it was. */
  lemma OrderedItemsLeaveUserListing(cart: CartLines, customer: Customer, mark: MarkOutcome, store: Store)
    requires PlaceOrder(cart, customer, mark).Placed?
    ensures var ids := PlaceOrder(cart, customer, mark).effects[0].itemIds;
            var after := ItemsController.MarkItemsUnavailable(store, Some(ids)).store;
            && after.Keys == store.Keys
            && (forall i :: 0 <= i < |AvailableLines(cart)| && AvailableLines(cart)[i].id in store ==>
                  var id := AvailableLines(cart)[i].id;
                  && after[id] == store[id].(available := false)
                  && (ItemsController.GetItemsForUsers(after).Ok? ==>
                        id !in ItemsController.GetItemsForUsers(after).value.items))
            && (forall id :: id in store && id !in ids ==> after[id] == store[id])
  {
    var ids := PlaceOrder(cart, customer, mark).effects[0].itemIds;
    var order := AvailableLines(cart);
    assert ids == Ids(order);
    forall i | 0 <= i < |order| ensures order[i].id in ids {
      assert ids[i] == order[i].id;
    }
  }
}
