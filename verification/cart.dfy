/**
 * The web client's cart (`zimark-web/src/App.jsx`): a sequence of lines, one per
 * catalog item, changed by `addCart`, `removeCart` and `updateCartQuantity`.
 * Prices are taken as naturals (the client's `Number(item.price)` of a numeric string).
 */
module Cart {
  import opened Wrappers
  import opened ItemStore

  /** A catalog item as the client received it. */
  datatype Product = Product(
    id: Id, name: string, price: nat, size: string, image: Option<string>, available: bool)

  /** A cart line: a copy of the product when it was added, plus a quantity. */
  datatype Line = Line(
    id: Id, name: string, price: nat, size: string, image: Option<string>, available: bool,
    quantity: int)

  type CartLines = seq<Line>

  predicate InCart(cart: CartLines, id: Id) {
    exists i :: 0 <= i < |cart| && cart[i].id == id
  }

  /** No two lines share an id. */
  predicate UniqueIds(cart: CartLines) {
    forall i, j :: 0 <= i < |cart| && 0 <= j < |cart| && cart[i].id == cart[j].id ==> i == j
  }

  /** Every line orders at least one unit. */
  predicate PositiveQuantities(cart: CartLines) {
    forall i :: 0 <= i < |cart| ==> cart[i].quantity >= 1
  }

  /** The invariant the three cart operations keep. */
  predicate ValidCart(cart: CartLines) {
    UniqueIds(cart) && PositiveQuantities(cart)
  }

  /** The line a newly added product starts as. */
  function NewLine(p: Product): Line {
    Line(p.id, p.name, p.price, p.size, p.image, p.available, 1)
  }

  /** Each line with the given id gets `f` applied; the others stay as they are. */
  function MapMatching(cart: CartLines, id: Id, f: Line -> Line): (r: CartLines)
    ensures |r| == |cart|
    ensures forall i :: 0 <= i < |cart| ==> r[i] == (if cart[i].id == id then f(cart[i]) else cart[i])
  {
    seq(|cart|, i requires 0 <= i < |cart| => if cart[i].id == id then f(cart[i]) else cart[i])
  }

  /** `addCart`: an unavailable product is refused; a product already in the cart
      gets one more unit on its line; any other product is appended with quantity 1. */
  function AddCart(cart: CartLines, p: Product): (r: CartLines)
    ensures !p.available ==> r == cart
    ensures p.available && InCart(cart, p.id) ==>
              && |r| == |cart|
              && forall i :: 0 <= i < |cart| ==>
                   if cart[i].id == p.id then r[i] == cart[i].(quantity := cart[i].quantity + 1)
                   else r[i] == cart[i]
    ensures p.available && !InCart(cart, p.id) ==>
              && |r| == |cart| + 1 && r[..|cart|] == cart
              && r[|cart|] == Line(p.id, p.name, p.price, p.size, p.image, true, 1)
  {
    if !p.available then cart
    else if InCart(cart, p.id) then
      MapMatching(cart, p.id, (l: Line) => l.(quantity := l.quantity + 1))
    else cart + [NewLine(p)]
  }

  /** `removeCart`: the lines whose id differs, in their original order. */
  function RemoveCart(cart: CartLines, id: Id): (r: CartLines)
    ensures !InCart(r, id)
    ensures |r| <= |cart|
    decreases |cart|
  {
    if |cart| == 0 then []
    else if cart[0].id == id then RemoveCart(cart[1..], id)
    else [cart[0]] + RemoveCart(cart[1..], id)
  }

  /** `updateCartQuantity`: a quantity below 1 is refused; otherwise each line with the
      id gets that quantity and every other line is unchanged. */
  function UpdateCartQuantity(cart: CartLines, id: Id, quantity: int): (r: CartLines)
    ensures quantity < 1 ==> r == cart
    ensures |r| == |cart|
    ensures quantity >= 1 ==> forall i :: 0 <= i < |cart| ==>
              if cart[i].id == id then r[i] == cart[i].(quantity := quantity) else r[i] == cart[i]
  {
    if quantity < 1 then cart
    else MapMatching(cart, id, (l: Line) => l.(quantity := quantity))
  }
}
