/**
 * The web client's cart page (`zimark-web/src/pages/Cart.jsx`): the cart total, the
 * quantity input, and the decision taken when the customer places an order. Sending
 * the order is a hand-off to WhatsApp, preceded by a request that marks the ordered
 * items unavailable; both are recorded as effects rather than performed.
 */
module CartPage {
  import opened Wrappers
  import opened ItemStore
  import opened Cart
  import CartProperties
  import Text

  // ---------------------------------------------------------------- totals

  /** What one line costs: unit price times quantity. */
  function Subtotal(l: Line): int {
    l.price * l.quantity
  }

  /** `totalPrice`: the running sum of the line subtotals, from the first line on. It
      equals the plain sum `LineSum`. */
  function TotalPrice(cart: CartLines): (t: int)
    ensures t == LineSum(cart)
    decreases |cart|
  {
    if |cart| == 0 then 0
    else
      LineSumLast(cart);
      TotalPrice(cart[..|cart| - 1]) + Subtotal(cart[|cart| - 1])
  }

  /** The sum of price times quantity over the lines, taken from the head, as a
      reference for `TotalPrice`. */
  function LineSum(cart: CartLines): int
    decreases |cart|
  {
    if |cart| == 0 then 0 else Subtotal(cart[0]) + LineSum(cart[1..])
  }

  /** `LineSum` can also peel off the last line. */
  lemma {:induction false} LineSumLast(cart: CartLines)
    requires |cart| > 0
    ensures LineSum(cart) == LineSum(cart[..|cart| - 1]) + Subtotal(cart[|cart| - 1])
    decreases |cart|
  {
    if |cart| > 1 {
      var rest := cart[1..];
      LineSumLast(rest);
      assert rest[..|rest| - 1] == cart[..|cart| - 1][1..];
    }
  }

  /** The total of a cart split in two is the sum of the parts' totals. */
  lemma {:induction false} TotalPriceAppend(a: CartLines, b: CartLines)
    ensures TotalPrice([]) == 0
    ensures TotalPrice(a + b) == TotalPrice(a) + TotalPrice(b)
    decreases |b|
  {
    if |b| == 0 {
      assert a + b == a;
    } else {
      var b' := b[..|b| - 1];
      TotalPriceAppend(a, b');
      assert (a + b)[..|a + b| - 1] == a + b';
    }
  }

  /** A cart whose quantities are all at least 1 costs at least each of its lines. */
  lemma {:induction false} TotalPriceCoversEachLine(cart: CartLines, k: nat)
    requires PositiveQuantities(cart) && k < |cart|
    ensures TotalPrice(cart) >= Subtotal(cart[k]) >= 0
    decreases |cart|
  {
    var init := cart[..|cart| - 1];
    if k < |cart| - 1 {
      TotalPriceCoversEachLine(init, k);
      assert cart[|cart| - 1].quantity >= 1;
    } else if |init| > 0 {
      TotalPriceCoversEachLine(init, 0);
    }
  }

  /** Changing one line changes the total by the difference of that line's subtotals. */
  lemma TotalPriceReplace(cart: CartLines, k: nat, l: Line)
    requires k < |cart|
    ensures TotalPrice(cart[k := l]) == TotalPrice(cart) - Subtotal(cart[k]) + Subtotal(l)
  {
    var pre, post := cart[..k], cart[k + 1..];
    assert cart == pre + [cart[k]] + post;
    assert cart[k := l] == pre + [l] + post;
    TotalPriceAppend(pre + [cart[k]], post);
    TotalPriceAppend(pre + [l], post);
    TotalPriceAppend(pre, [cart[k]]);
    TotalPriceAppend(pre, [l]);
  }

  /** Adding an available product not yet in the cart raises the total by its price. */
  lemma TotalPriceAfterAddNew(cart: CartLines, p: Product)
    requires p.available && !InCart(cart, p.id)
    ensures TotalPrice(AddCart(cart, p)) == TotalPrice(cart) + p.price
  {
    assert AddCart(cart, p) == cart + [NewLine(p)];
    TotalPriceAppend(cart, [NewLine(p)]);
    assert TotalPrice([NewLine(p)]) == TotalPrice([]) + Subtotal(NewLine(p));
  }

  /** One more unit on line `k` costs one more unit price. */
  lemma TotalPriceIncrement(cart: CartLines, k: nat)
    requires k < |cart|
    ensures TotalPrice(cart[k := cart[k].(quantity := cart[k].quantity + 1)])
              == TotalPrice(cart) + cart[k].price
  {
    TotalPriceReplace(cart, k, cart[k].(quantity := cart[k].quantity + 1));
    SubtotalIncrement(cart[k]);
  }

  lemma SubtotalIncrement(l: Line)
    ensures Subtotal(l.(quantity := l.quantity + 1)) == Subtotal(l) + l.price
  {
    assert l.price * (l.quantity + 1) == l.price * l.quantity + l.price;
  }

  /** Adding a product already in the cart raises the total by one unit at the price
      recorded on its line, which may differ from the product's current price. */
  lemma TotalPriceAfterAddExisting(cart: CartLines, p: Product, k: nat)
    requires UniqueIds(cart) && p.available
    requires k < |cart| && cart[k].id == p.id
    ensures TotalPrice(AddCart(cart, p)) == TotalPrice(cart) + cart[k].price
  {
    CartProperties.AddExistingIncrementsOneLine(cart, p, k);
    TotalPriceIncrement(cart, k);
  }

  /** Removing a line lowers the total by exactly that line's subtotal. */
  lemma TotalPriceAfterRemove(cart: CartLines, k: nat)
    requires UniqueIds(cart) && k < |cart|
    ensures TotalPrice(RemoveCart(cart, cart[k].id)) == TotalPrice(cart) - Subtotal(cart[k])
  {
    var pre, post := cart[..k], cart[k + 1..];
    CartProperties.RemoveExactlyOne(cart, cart[k].id, k);
    assert cart == pre + [cart[k]] + post;
    calc {
      TotalPrice(cart);
    == { TotalPriceAppend(pre + [cart[k]], post); }
      TotalPrice(pre + [cart[k]]) + TotalPrice(post);
    == { TotalPriceAppend(pre, [cart[k]]); assert [cart[k]][..0] == []; }
      TotalPrice(pre) + Subtotal(cart[k]) + TotalPrice(post);
    == { TotalPriceAppend(pre, post); }
      TotalPrice(pre + post) + Subtotal(cart[k]);
    }
  }

  // ---------------------------------------------------------------- the quantity input

  /** The quantity input's change handler: the typed text goes through `parseInt`; a
      `NaN` or a value below 1 is dropped, anything else is passed on. */
  function QuantityInput(cart: CartLines, id: Id, typed: string): (r: CartLines)
    ensures r == cart || exists q :: q >= 1 && ParsedAs(typed, q) && r == UpdateCartQuantity(cart, id, q)
    ensures Text.ParseInt(typed).Some? && Text.ParseInt(typed).value >= 1 ==>
              r == UpdateCartQuantity(cart, id, Text.ParseInt(typed).value)
    ensures Text.ParseInt(typed).None? || Text.ParseInt(typed).value < 1 ==> r == cart
    ensures ValidCart(cart) ==> ValidCart(r)
  {
    match Text.ParseInt(typed)
    case None => cart
    case Some(v) =>
      if v < 1 then cart
      else
        assert ParsedAs(typed, v);
        UpdateCartQuantity(cart, id, v)
  }

  predicate ParsedAs(typed: string, q: int) {
    Text.ParseInt(typed) == Some(q)
  }

  /** A positive whole number typed in (optionally with a fraction) sets the line's
      quantity to it. */
  lemma QuantityInputSetsTypedNumber(cart: CartLines, id: Id, n: nat, fraction: string)
    requires n >= 1
    requires fraction == [] || fraction[0] == '.'
    ensures QuantityInput(cart, id, Text.Decimal(n) + fraction) == UpdateCartQuantity(cart, id, n)
  {
    Text.ParseIntDecimal(n, fraction);
  }

  /** A negative number typed in changes nothing. */
  lemma QuantityInputIgnoresNegative(cart: CartLines, id: Id, n: nat)
    ensures QuantityInput(cart, id, "-" + Text.Decimal(n)) == cart
  {
    Text.ParseIntNegative(n);
  }

  // ---------------------------------------------------------------- placing the order

  /** The order dialog's fields. */
  datatype Customer = Customer(name: string, phone: string, location: string, hostel: string)

  /** One row of the receipt. */
  datatype ReceiptLine = ReceiptLine(name: string, quantity: int, subtotal: int)

  /** The receipt text's content (its layout is not modelled). */
  datatype Receipt = Receipt(customer: Customer, lines: seq<ReceiptLine>, total: int)

  /** What the page does to the outside world, in order. */
  datatype Effect = MarkUnavailable(itemIds: seq<Id>) | OpenWhatsApp(receipt: Receipt)

  datatype Toast = ErrorToast(text: string) | SuccessToast(text: string)

  /** How the mark-unavailable request ended: a response (with or without a body) or
      a thrown error. */
  datatype MarkOutcome = Answered(hasData: bool) | Failed

  /** The result of pressing "Send Order". */
  datatype Decision =
    | Rejected(toast: Toast)
    | Placed(effects: seq<Effect>, toasts: seq<Toast>)

  /** The lines still flagged available, in cart order. */
  function AvailableLines(cart: CartLines): (r: CartLines)
    ensures |r| <= |cart|
    ensures forall i :: 0 <= i < |r| ==> r[i].available
    decreases |cart|
  {
    if |cart| == 0 then []
    else if cart[0].available then [cart[0]] + AvailableLines(cart[1..])
    else AvailableLines(cart[1..])
  }

  /** The ids of some lines, in order. */
  function Ids(lines: CartLines): (ids: seq<Id>)
    ensures |ids| == |lines|
    ensures forall i :: 0 <= i < |lines| ==> ids[i] == lines[i].id
  {
    seq(|lines|, i requires 0 <= i < |lines| => lines[i].id)
  }

  function ReceiptLines(lines: CartLines): (r: seq<ReceiptLine>)
    ensures |r| == |lines|
    ensures forall i :: 0 <= i < |lines| ==>
              r[i] == ReceiptLine(lines[i].name, lines[i].quantity, Subtotal(lines[i]))
  {
    seq(|lines|, i requires 0 <= i < |lines| =>
          ReceiptLine(lines[i].name, lines[i].quantity, Subtotal(lines[i])))
  }

  function MissingDetails(c: Customer): bool {
    c.name == "" || c.phone == "" || c.location == "" || c.hostel == ""
  }

  /** `handlePlaceOrder`: an empty cart is refused first, then missing customer details,
      then a cart with no available line; otherwise the receipt is built from the
      available lines (its total is the whole cart's), the items are marked unavailable,
      and WhatsApp is opened whatever that request's outcome. */
  function PlaceOrder(cart: CartLines, customer: Customer, mark: MarkOutcome): (d: Decision)
    ensures |cart| == 0 ==> d == Rejected(ErrorToast("Your cart is empty."))
    ensures |cart| > 0 && MissingDetails(customer) ==>
              d == Rejected(ErrorToast("Please fill in all customer details."))
    ensures |cart| > 0 && !MissingDetails(customer) && AvailableLines(cart) == [] ==>
              d == Rejected(ErrorToast("No available items in your cart."))
    ensures d.Placed? <==> |cart| > 0 && !MissingDetails(customer) && AvailableLines(cart) != []
    ensures d.Placed? ==>
              d.toasts == match mark
                case Answered(true) => [SuccessToast("Order sent and items updated!")]
                case Answered(false) => []
                case Failed => [ErrorToast("Order sent, but failed to update item availability.")]
    ensures d.Placed? ==>
              && |d.effects| == 2
              && d.effects[0] == MarkUnavailable(Ids(AvailableLines(cart)))
              && d.effects[1].OpenWhatsApp?
              && d.effects[1].receipt.customer == customer
              && d.effects[1].receipt.total == TotalPrice(cart)
              && d.effects[1].receipt.lines == ReceiptLines(AvailableLines(cart))
  {
    if |cart| == 0 then Rejected(ErrorToast("Your cart is empty."))
    else if MissingDetails(customer) then Rejected(ErrorToast("Please fill in all customer details."))
    else
      var order := AvailableLines(cart);
      if |order| == 0 then Rejected(ErrorToast("No available items in your cart."))
      else
        var receipt := Receipt(customer, ReceiptLines(order), TotalPrice(cart));
        var toasts := match mark
          case Answered(true) => [SuccessToast("Order sent and items updated!")]
          case Answered(false) => []
          case Failed => [ErrorToast("Order sent, but failed to update item availability.")];
        Placed([MarkUnavailable(Ids(order)), OpenWhatsApp(receipt)], toasts)
  }
}
