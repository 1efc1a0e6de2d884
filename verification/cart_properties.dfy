/**
 * Properties of the web cart operations: line ids stay unique and quantities stay at
 * least 1, removal is an order-preserving filter that undoes an add, and a quantity
 * change touches one line only.
 */
module CartProperties {
  import opened ItemStore
  import opened Cart

  /** Every line came from an available product. */
  predicate AllAvailable(cart: CartLines) {
    forall i :: 0 <= i < |cart| ==> cart[i].available
  }

  lemma AddCartKeepsValid(cart: CartLines, p: Product)
    requires ValidCart(cart)
    ensures ValidCart(AddCart(cart, p))
  {
    var r := AddCart(cart, p);
    if p.available && !InCart(cart, p.id) {
      forall i, j | 0 <= i < |r| && 0 <= j < |r| && r[i].id == r[j].id
        ensures i == j
      {
      }
    }
  }

  /** Every line `RemoveCart` keeps is a line of the cart. */
  lemma {:induction false} RemoveCartKeepsCartLines(cart: CartLines, id: Id)
    ensures forall i :: 0 <= i < |RemoveCart(cart, id)| ==> RemoveCart(cart, id)[i] in cart
    decreases |cart|
  {
    if |cart| > 0 {
      var rest := cart[1..];
      RemoveCartKeepsCartLines(rest, id);
      var tail := RemoveCart(rest, id);
      var r := RemoveCart(cart, id);
      forall i | 0 <= i < |r| ensures r[i] in cart {
        if cart[0].id == id {
          assert tail[i] in rest;
          var j :| 0 <= j < |rest| && rest[j] == tail[i];
          assert cart[j + 1] == r[i];
        } else if i == 0 {
          assert cart[0] == r[0];
        } else {
          assert tail[i - 1] in rest;
          var j :| 0 <= j < |rest| && rest[j] == tail[i - 1];
          assert cart[j + 1] == r[i];
        }
      }
    }
  }

  /** The lines `RemoveCart` keeps are lines of the cart. */
  lemma {:induction false} RemoveCartKeepsValid(cart: CartLines, id: Id)
    requires ValidCart(cart)
    ensures ValidCart(RemoveCart(cart, id))
    decreases |cart|
  {
    if |cart| > 0 {
      var rest := cart[1..];
      assert ValidCart(rest) by {
        forall i, j | 0 <= i < |rest| && 0 <= j < |rest| && rest[i].id == rest[j].id
          ensures i == j
        {
          assert cart[i + 1].id == cart[j + 1].id;
        }
      }
      RemoveCartKeepsValid(rest, id);
      var tail := RemoveCart(rest, id);
      if cart[0].id != id {
        RemoveCartKeepsCartLines(rest, id);
        assert !InCart(tail, cart[0].id) by {
          forall i | 0 <= i < |tail| ensures tail[i].id != cart[0].id {
            assert tail[i] in rest;
            var j :| 0 <= j < |rest| && rest[j] == tail[i];
            assert cart[j + 1] == tail[i];
          }
        }
        var r := [cart[0]] + tail;
        forall i, j | 0 <= i < |r| && 0 <= j < |r| && r[i].id == r[j].id
          ensures i == j
        {
          if i > 0 && j > 0 {
            assert tail[i - 1].id == tail[j - 1].id;
          }
        }
      }
    }
  }

  lemma UpdateCartQuantityKeepsValid(cart: CartLines, id: Id, quantity: int)
    requires ValidCart(cart)
    ensures ValidCart(UpdateCartQuantity(cart, id, quantity))
  {
  }

  /** Without a line for the id, a quantity change leaves the cart as it is. */
  lemma UpdateAbsentIsNoOp(cart: CartLines, id: Id, quantity: int)
    requires !InCart(cart, id)
    ensures UpdateCartQuantity(cart, id, quantity) == cart
  {
    var r := UpdateCartQuantity(cart, id, quantity);
    forall i | 0 <= i < |cart| ensures r[i] == cart[i] {
      assert cart[i].id != id;
    }
  }

  /** Without a line for the id, `RemoveCart` gives back the cart itself. */
  lemma {:induction false} RemoveAbsent(cart: CartLines, id: Id)
    requires !InCart(cart, id)
    ensures RemoveCart(cart, id) == cart
    decreases |cart|
  {
    if |cart| > 0 {
      assert !InCart(cart[1..], id);
      RemoveAbsent(cart[1..], id);
      assert [cart[0]] + cart[1..] == cart;
    }
  }

  /** `RemoveCart` distributes over concatenation: it is a filter that keeps the order. */
  lemma {:induction false} RemoveCartAppend(a: CartLines, b: CartLines, id: Id)
    ensures RemoveCart(a + b, id) == RemoveCart(a, id) + RemoveCart(b, id)
    decreases |a|
  {
    if |a| > 0 {
      assert (a + b)[1..] == a[1..] + b;
      RemoveCartAppend(a[1..], b, id);
    } else {
      assert a + b == b;
    }
  }

  /** With unique ids, removing an id present at index `k` cuts out exactly that line
      and keeps the others in their order. */
  lemma {:induction false} RemoveExactlyOne(cart: CartLines, id: Id, k: nat)
    requires UniqueIds(cart)
    requires k < |cart| && cart[k].id == id
    ensures RemoveCart(cart, id) == cart[..k] + cart[k + 1..]
    decreases k
  {
    var rest := cart[1..];
    assert UniqueIds(rest) by {
      forall i, j | 0 <= i < |rest| && 0 <= j < |rest| && rest[i].id == rest[j].id
        ensures i == j
      {
        assert cart[i + 1].id == cart[j + 1].id;
      }
    }
    if k == 0 {
      assert !InCart(rest, id) by {
        forall i | 0 <= i < |rest| ensures rest[i].id != id {
          assert cart[i + 1] == rest[i];
        }
      }
      RemoveAbsent(rest, id);
    } else {
      assert cart[0].id != id;
      RemoveExactlyOne(rest, id, k - 1);
      assert cart[..k] == [cart[0]] + rest[..k - 1];
      assert cart[k + 1..] == rest[k..];
    }
  }

  /** Removing a product just added as a new line restores the cart. */
  lemma RemoveUndoesAdd(cart: CartLines, p: Product)
    requires p.available && !InCart(cart, p.id)
    ensures RemoveCart(AddCart(cart, p), p.id) == cart
  {
    var r := AddCart(cart, p);
    assert r == cart + [NewLine(p)];
    RemoveCartAppend(cart, [NewLine(p)], p.id);
    RemoveAbsent(cart, p.id);
    assert RemoveCart([NewLine(p)], p.id) == [];
  }

  /** With unique ids, adding a product already present raises that one line's quantity
      by one and changes nothing else. */
  lemma AddExistingIncrementsOneLine(cart: CartLines, p: Product, k: nat)
    requires UniqueIds(cart) && p.available
    requires k < |cart| && cart[k].id == p.id
    ensures AddCart(cart, p) == cart[k := cart[k].(quantity := cart[k].quantity + 1)]
  {
    var r := AddCart(cart, p);
    forall i | 0 <= i < |cart| && i != k ensures r[i] == cart[i] {
      assert cart[i].id != cart[k].id;
    }
  }

  /** Setting a line's quantity and then setting back the old one restores the cart. */
  lemma UpdateQuantityRoundTrip(cart: CartLines, k: nat, quantity: int)
    requires ValidCart(cart) && k < |cart|
    ensures UpdateCartQuantity(UpdateCartQuantity(cart, cart[k].id, quantity),
                               cart[k].id, cart[k].quantity) == cart
  {
    var id := cart[k].id;
    var r := UpdateCartQuantity(UpdateCartQuantity(cart, id, quantity), id, cart[k].quantity);
    forall i | 0 <= i < |cart| ensures r[i] == cart[i] {
      if cart[i].id == id {
        assert i == k;
      }
    }
  }

  // ---------------------------------------------------------------- any sequence of operations

  /** One user action on the cart. */
  datatype CartOp = Add(product: Product) | Remove(id: Id) | SetQuantity(id: Id, quantity: int)

  function ApplyOp(cart: CartLines, op: CartOp): CartLines {
    match op
    case Add(p) => AddCart(cart, p)
    case Remove(id) => RemoveCart(cart, id)
    case SetQuantity(id, q) => UpdateCartQuantity(cart, id, q)
  }

  function ApplyOps(cart: CartLines, ops: seq<CartOp>): CartLines
    decreases |ops|
  {
    if |ops| == 0 then cart else ApplyOps(ApplyOp(cart, ops[0]), ops[1..])
  }

  lemma ApplyOpKeepsAvailable(cart: CartLines, op: CartOp)
    requires AllAvailable(cart)
    ensures AllAvailable(ApplyOp(cart, op))
  {
    match op
    case Add(p) =>
    case Remove(id) =>
      var r := RemoveCart(cart, id);
      RemoveCartKeepsCartLines(cart, id);
      forall i | 0 <= i < |r| ensures r[i].available {
        assert r[i] in cart;
        var j :| 0 <= j < |cart| && cart[j] == r[i];
      }
    case SetQuantity(id, q) =>
  }

  /** Whatever the user does, line ids stay unique, quantities stay at least 1, and
      every line comes from a product that was available when it was added. */
  lemma {:induction false} ApplyOpsKeepsValid(cart: CartLines, ops: seq<CartOp>)
    requires ValidCart(cart) && AllAvailable(cart)
    ensures ValidCart(ApplyOps(cart, ops)) && AllAvailable(ApplyOps(cart, ops))
    decreases |ops|
  {
    if |ops| > 0 {
      var next := ApplyOp(cart, ops[0]);
      match ops[0] {
        case Add(p) => AddCartKeepsValid(cart, p);
        case Remove(id) => RemoveCartKeepsValid(cart, id);
        case SetQuantity(id, q) => UpdateCartQuantityKeepsValid(cart, id, q);
      }
      ApplyOpKeepsAvailable(cart, ops[0]);
      ApplyOpsKeepsValid(next, ops[1..]);
    }
  }
}
