/** One user's cart as a value: its cart lines and saved-for-later lines, and what each
    cart handler makes of it. The handlers' in-place versions are in CartRoutes. */
module CartLines {
  import opened Wrappers

  /** A `CartItem` or `SavedItem` row of this cart. */
  datatype Line = Line(id: nat, productId: nat, quantity: int)

  datatype Cart = Cart(id: nat, userId: nat, items: seq<Line>, saved: seq<Line>)

  /** The texts of the OutOfStockError raised by the handlers. */
  datatype StockReason =
    | ProductNotFound                        // "Product not found"
    | OnlyAvailable(stock: nat)              // "Only {stock} units available"
    | OnlyAvailableHeld(stock: nat, held: int) // "... You already have {held} in your cart."

  datatype CartError =
    | OutOfStock(reason: StockReason)
    | CartItemNotFound                       // CartNotFoundError("Cart item not found")
    | SavedItemNotFound                      // CartNotFoundError("Saved item not found")
    | MissingProduct                         // `product.stock` on None: an unhandled server error

  /** One entry of the merge request. */
  datatype GuestEntry = GuestEntry(productId: nat, quantity: int)

  // ------------------------------------------------------------ lookups

  /** The first line for a product, or |lines|: `.filter(product_id == p).first()`. */
  function FindProduct(lines: seq<Line>, productId: nat): (i: nat)
    ensures i <= |lines|
    ensures i < |lines| ==> lines[i].productId == productId
    ensures forall j :: 0 <= j < i ==> lines[j].productId != productId
  {
    if lines == [] then 0
    else if lines[0].productId == productId then 0
    else 1 + FindProduct(lines[1..], productId)
  }

  /** The first line with an id, or |lines|: `.filter(id == item_id, cart_id == cart.id).first()`. */
  function FindId(lines: seq<Line>, id: nat): (i: nat)
    ensures i <= |lines|
    ensures i < |lines| ==> lines[i].id == id
    ensures forall j :: 0 <= j < i ==> lines[j].id != id
  {
    if lines == [] then 0
    else if lines[0].id == id then 0
    else 1 + FindId(lines[1..], id)
  }

  /** The quantity held for a product, or None when no line holds it. */
  function QtyOf(lines: seq<Line>, productId: nat): Option<int>
  {
    var i := FindProduct(lines, productId);
    if i < |lines| then Some(lines[i].quantity) else None
  }

  function SetQty(lines: seq<Line>, i: nat, quantity: int): seq<Line>
    requires i < |lines|
  {
    lines[i := lines[i].(quantity := quantity)]
  }

  function RemoveAt(lines: seq<Line>, i: nat): seq<Line>
    requires i < |lines|
  {
    lines[..i] + lines[i + 1..]
  }

  function Min(a: int, b: int): int { if a <= b then a else b }

  // ------------------------------------------------------------ the handlers on values

  /** `add_to_cart` after get-or-create; `newId` is the id a new line would get. */
  function AddItem(c: Cart, products: map<nat, nat>, productId: nat, quantity: int, newId: nat): Result<Cart, CartError>
  {
    if productId !in products then Failure(OutOfStock(ProductNotFound))
    else
      var stock, i := products[productId], FindProduct(c.items, productId);
      if i < |c.items| then
        var total := c.items[i].quantity + quantity;
        if total > stock then Failure(OutOfStock(OnlyAvailableHeld(stock, c.items[i].quantity)))
        else Success(c.(items := SetQty(c.items, i, total)))
      else if quantity > stock then Failure(OutOfStock(OnlyAvailable(stock)))
      else Success(c.(items := c.items + [Line(newId, productId, quantity)]))
  }

  /** `update_cart_item`: set a line's quantity absolutely. */
  function UpdateItem(c: Cart, products: map<nat, nat>, itemId: nat, quantity: int): Result<Cart, CartError>
  {
    var i := FindId(c.items, itemId);
    if i == |c.items| then Failure(CartItemNotFound)
    else if c.items[i].productId !in products then Failure(MissingProduct)
    else if quantity > products[c.items[i].productId] then Failure(OutOfStock(OnlyAvailable(products[c.items[i].productId])))
    else Success(c.(items := SetQty(c.items, i, quantity)))
  }

  /** `remove_cart_item`. */
  function RemoveItem(c: Cart, itemId: nat): Result<Cart, CartError>
  {
    var i := FindId(c.items, itemId);
    if i == |c.items| then Failure(CartItemNotFound)
    else Success(c.(items := RemoveAt(c.items, i)))
  }

  /** One iteration of the `merge_guest_cart` loop: unknown products are skipped, quantities
      are summed and capped at stock, and a new line gets min(quantity, stock), even 0. */
  function MergeEntry(c: Cart, products: map<nat, nat>, g: GuestEntry, newId: nat): Cart
  {
    if g.productId !in products then c
    else
      var stock, i := products[g.productId], FindProduct(c.items, g.productId);
      if i < |c.items| then c.(items := SetQty(c.items, i, Min(c.items[i].quantity + g.quantity, stock)))
      else c.(items := c.items + [Line(newId, g.productId, Min(g.quantity, stock))])
  }

  /** `merge_guest_cart`: a left fold of MergeEntry; entry k may create line `newId + k`. */
  function Merge(c: Cart, products: map<nat, nat>, guest: seq<GuestEntry>, newId: nat): Cart
    decreases |guest|
  {
    if guest == [] then c
    else
      var last := |guest| - 1;
      MergeEntry(Merge(c, products, guest[..last], newId), products, guest[last], newId + last)
  }

  /** `save_for_later`: the saved line takes the cart line's quantity (overwriting, not
      summing) and the cart line is deleted. */
  function SaveForLater(c: Cart, itemId: nat, newId: nat): Result<Cart, CartError>
  {
    var i := FindId(c.items, itemId);
    if i == |c.items| then Failure(CartItemNotFound)
    else
      var line := c.items[i];
      var j := FindProduct(c.saved, line.productId);
      var saved := if j < |c.saved| then SetQty(c.saved, j, line.quantity)
                   else c.saved + [Line(newId, line.productId, line.quantity)];
      Success(c.(items := RemoveAt(c.items, i), saved := saved))
  }

  /** `restore_saved_item`: both stock checks come before anything changes. */
  function Restore(c: Cart, products: map<nat, nat>, savedId: nat, newId: nat): Result<Cart, CartError>
  {
    var j := FindId(c.saved, savedId);
    if j == |c.saved| then Failure(SavedItemNotFound)
    else
      var s := c.saved[j];
      if s.productId !in products then Failure(MissingProduct)
      else
        var stock := products[s.productId];
        if s.quantity > stock then Failure(OutOfStock(OnlyAvailable(stock)))
        else
          var i := FindProduct(c.items, s.productId);
          if i < |c.items| && c.items[i].quantity + s.quantity > stock then Failure(OutOfStock(OnlyAvailable(stock)))
          else
            var items := if i < |c.items| then SetQty(c.items, i, c.items[i].quantity + s.quantity)
                         else c.items + [Line(newId, s.productId, s.quantity)];
            Success(c.(items := items, saved := RemoveAt(c.saved, j)))
  }

  /** `remove_saved_item`. */
  function RemoveSaved(c: Cart, savedId: nat): Result<Cart, CartError>
  {
    var j := FindId(c.saved, savedId);
    if j == |c.saved| then Failure(SavedItemNotFound)
    else Success(c.(saved := RemoveAt(c.saved, j)))
  }

  /** `clear_cart`: every cart line goes, saved lines stay. */
  function Clear(c: Cart): (r: Cart)
    ensures r.items == [] && r.saved == c.saved && r.id == c.id && r.userId == c.userId
  {
    c.(items := [])
  }

  // ------------------------------------------------------------ invariants

  /** At most one line per product: the unique constraints on (cart_id, product_id). */
  predicate UniqueProducts(lines: seq<Line>)
  {
    forall i, j :: 0 <= i < |lines| && 0 <= j < |lines| && lines[i].productId == lines[j].productId ==> i == j
  }

  predicate UniqueIds(lines: seq<Line>)
  {
    forall i, j :: 0 <= i < |lines| && 0 <= j < |lines| && lines[i].id == lines[j].id ==> i == j
  }

  predicate IdsBelow(lines: seq<Line>, next: nat)
  {
    forall i :: 0 <= i < |lines| ==> lines[i].id < next
  }

  /** The foreign key to products. */
  predicate KnownProducts(lines: seq<Line>, products: map<nat, nat>)
  {
    forall i :: 0 <= i < |lines| ==> lines[i].productId in products
  }

  predicate NonNegative(lines: seq<Line>)
  {
    forall i :: 0 <= i < |lines| ==> lines[i].quantity >= 0
  }

  predicate LinesOk(lines: seq<Line>, products: map<nat, nat>, next: nat)
  {
    UniqueProducts(lines) && UniqueIds(lines) && IdsBelow(lines, next) && KnownProducts(lines, products) && NonNegative(lines)
  }

  /** What the database guarantees of a cart; `nextItem` and `nextSaved` are the ids the
      next new rows will get. */
  predicate WellFormed(c: Cart, products: map<nat, nat>, nextItem: nat, nextSaved: nat)
  {
    LinesOk(c.items, products, nextItem) && LinesOk(c.saved, products, nextSaved)
  }

  /** No line holds more than its product's stock. */
  predicate WithinStock(lines: seq<Line>, products: map<nat, nat>)
  {
    forall i :: 0 <= i < |lines| && lines[i].productId in products ==> lines[i].quantity <= products[lines[i].productId]
  }

  // ------------------------------------------------------------ the three edits, per product

  lemma FindProductOf(lines: seq<Line>, i: nat)
    requires UniqueProducts(lines) && i < |lines|
    ensures FindProduct(lines, lines[i].productId) == i
  {
  }

  lemma FindProductIs(lines: seq<Line>, productId: nat, k: nat)
    requires k <= |lines| && (k < |lines| ==> lines[k].productId == productId)
    requires forall j :: 0 <= j < k ==> lines[j].productId != productId
    ensures FindProduct(lines, productId) == k
  {
  }

  lemma FindIdIs(lines: seq<Line>, id: nat, k: nat)
    requires k <= |lines| && (k < |lines| ==> lines[k].id == id)
    requires forall j :: 0 <= j < k ==> lines[j].id != id
    ensures FindId(lines, id) == k
  {
  }

  /** Setting the quantity of a product's first line changes what that product holds and
      nothing else. */
  lemma QtySetQty(lines: seq<Line>, i: nat, quantity: int, p: nat)
    requires i < |lines| && FindProduct(lines, lines[i].productId) == i
    ensures QtyOf(SetQty(lines, i, quantity), p) == if p == lines[i].productId then Some(quantity) else QtyOf(lines, p)
  {
    FindProductIs(SetQty(lines, i, quantity), p, FindProduct(lines, p));
  }

  /** Appending a line for a product not yet held adds exactly that product. */
  lemma QtyAppend(lines: seq<Line>, l: Line, p: nat)
    requires QtyOf(lines, l.productId) == None
    ensures QtyOf(lines + [l], p) == if p == l.productId then Some(l.quantity) else QtyOf(lines, p)
  {
    var k := FindProduct(lines, p);
    if k < |lines| {
      FindProductIs(lines + [l], p, k);
    } else if p == l.productId {
      FindProductIs(lines + [l], p, |lines|);
    } else {
      FindProductIs(lines + [l], p, |lines| + 1);
    }
  }

  /** Deleting line i removes its product and nothing else. */
  lemma QtyRemove(lines: seq<Line>, i: nat, p: nat)
    requires UniqueProducts(lines) && i < |lines|
    ensures QtyOf(RemoveAt(lines, i), p) == if p == lines[i].productId then None else QtyOf(lines, p)
  {
    var r := RemoveAt(lines, i);
    assert forall j :: 0 <= j < i ==> r[j] == lines[j];
    assert forall j :: i <= j < |r| ==> r[j] == lines[j + 1];
    var k := FindProduct(lines, p);
    if p == lines[i].productId {
      FindProductOf(lines, i);
      FindProductIs(r, p, |r|);
    } else if k < i {
      FindProductIs(r, p, k);
    } else if k < |lines| {
      FindProductIs(r, p, k - 1);
    } else {
      FindProductIs(r, p, |r|);
    }
  }

  // ------------------------------------------------------------ the three edits keep the invariant

  lemma LinesOkRaise(lines: seq<Line>, products: map<nat, nat>, next: nat, next': nat)
    requires LinesOk(lines, products, next) && next <= next'
    ensures LinesOk(lines, products, next')
  {
  }

  lemma WellFormedRaise(c: Cart, products: map<nat, nat>, nextItem: nat, nextSaved: nat, nextItem': nat, nextSaved': nat)
    requires WellFormed(c, products, nextItem, nextSaved) && nextItem <= nextItem' && nextSaved <= nextSaved'
    ensures WellFormed(c, products, nextItem', nextSaved')
  {
    LinesOkRaise(c.items, products, nextItem, nextItem');
    LinesOkRaise(c.saved, products, nextSaved, nextSaved');
  }

  lemma LinesOkSetQty(lines: seq<Line>, products: map<nat, nat>, next: nat, i: nat, quantity: int)
    requires LinesOk(lines, products, next) && i < |lines| && quantity >= 0
    ensures LinesOk(SetQty(lines, i, quantity), products, next)
  {
    var r := SetQty(lines, i, quantity);
    assert forall j :: 0 <= j < |r| ==> r[j].productId == lines[j].productId && r[j].id == lines[j].id;
  }

  lemma LinesOkAppend(lines: seq<Line>, products: map<nat, nat>, next: nat, l: Line)
    requires LinesOk(lines, products, next) && QtyOf(lines, l.productId) == None
    requires l.id == next && l.productId in products && l.quantity >= 0
    ensures LinesOk(lines + [l], products, next + 1)
  {
    var r := lines + [l];
    assert forall j :: 0 <= j < |lines| ==> r[j] == lines[j] && lines[j].productId != l.productId && lines[j].id < l.id;
  }

  lemma LinesOkRemove(lines: seq<Line>, products: map<nat, nat>, next: nat, i: nat)
    requires LinesOk(lines, products, next) && i < |lines|
    ensures LinesOk(RemoveAt(lines, i), products, next)
  {
    var r := RemoveAt(lines, i);
    assert forall j :: 0 <= j < |r| ==> r[j] == lines[if j < i then j else j + 1];
  }

  lemma StockSetQty(lines: seq<Line>, products: map<nat, nat>, i: nat, quantity: int)
    requires WithinStock(lines, products) && i < |lines|
    requires lines[i].productId in products ==> quantity <= products[lines[i].productId]
    ensures WithinStock(SetQty(lines, i, quantity), products)
  {
  }

  lemma StockRemove(lines: seq<Line>, products: map<nat, nat>, i: nat)
    requires WithinStock(lines, products) && i < |lines|
    ensures WithinStock(RemoveAt(lines, i), products)
  {
    var r := RemoveAt(lines, i);
    assert forall j :: 0 <= j < |r| ==> r[j] == lines[if j < i then j else j + 1];
  }

  // ------------------------------------------------------------ what each handler does, per product

  function OrZero(o: Option<int>): int
  {
    match o
    case Some(v) => v
    case None => 0
  }

  /** The quantity a product shows: its line's, or 0 without one. */
  function Held(lines: seq<Line>, productId: nat): int
  {
    OrZero(QtyOf(lines, productId))
  }

  /** Every product other than `productId` holds what it held before. */
  ghost predicate OthersKept(before: seq<Line>, after: seq<Line>, productId: nat)
  {
    forall p :: p != productId ==> QtyOf(after, p) == QtyOf(before, p)
  }

  /** Adding fails exactly when the product is unknown or the total would pass its stock,
      with the message that names what is already held; otherwise the product gains
      `quantity` (a new line when it had none) and nothing else changes. */
  lemma AddOutcome(c: Cart, products: map<nat, nat>, productId: nat, quantity: int, newId: nat)
    ensures var r := AddItem(c, products, productId, quantity, newId);
      productId !in products ==> r == Failure(OutOfStock(ProductNotFound))
    ensures var r := AddItem(c, products, productId, quantity, newId);
      productId in products ==>
        && (r.Failure? <==> Held(c.items, productId) + quantity > products[productId])
        && (r.Failure? && QtyOf(c.items, productId).Some? ==>
              r.error == OutOfStock(OnlyAvailableHeld(products[productId], Held(c.items, productId))))
        && (r.Failure? && QtyOf(c.items, productId).None? ==>
              r.error == OutOfStock(OnlyAvailable(products[productId])))
    ensures var r := AddItem(c, products, productId, quantity, newId);
      r.Success? ==>
        && QtyOf(r.value.items, productId) == Some(Held(c.items, productId) + quantity)
        && OthersKept(c.items, r.value.items, productId)
        && r.value.saved == c.saved && r.value.id == c.id && r.value.userId == c.userId
        && (QtyOf(c.items, productId).None? ==> r.value.items == c.items + [Line(newId, productId, quantity)])
  {
    var r := AddItem(c, products, productId, quantity, newId);
    if r.Success? {
      var i := FindProduct(c.items, productId);
      forall p ensures QtyOf(r.value.items, p) == if p == productId then Some(Held(c.items, productId) + quantity) else QtyOf(c.items, p) {
        if i < |c.items| {
          QtySetQty(c.items, i, c.items[i].quantity + quantity, p);
        } else {
          QtyAppend(c.items, Line(newId, productId, quantity), p);
        }
      }
    }
  }

  /** Adding a positive quantity keeps the cart well formed and within stock. */
  lemma AddKeepsInvariants(c: Cart, products: map<nat, nat>, productId: nat, quantity: int, nextItem: nat, nextSaved: nat)
    requires WellFormed(c, products, nextItem, nextSaved) && quantity > 0
    ensures var r := AddItem(c, products, productId, quantity, nextItem);
      r.Success? ==> WellFormed(r.value, products, nextItem + 1, nextSaved)
    ensures var r := AddItem(c, products, productId, quantity, nextItem);
      r.Success? && WithinStock(c.items, products) ==> WithinStock(r.value.items, products)
  {
    var r := AddItem(c, products, productId, quantity, nextItem);
    if r.Success? {
      var i := FindProduct(c.items, productId);
      if i < |c.items| {
        LinesOkSetQty(c.items, products, nextItem, i, c.items[i].quantity + quantity);
        LinesOkRaise(r.value.items, products, nextItem, nextItem + 1);
      } else {
        LinesOkAppend(c.items, products, nextItem, Line(nextItem, productId, quantity));
      }
    }
  }

  /** Updating fails for a line id this cart does not have, and for a quantity over the
      product's stock; otherwise that line's product shows exactly `quantity`. A well-formed
      cart never meets the missing product. */
  lemma UpdateOutcome(c: Cart, products: map<nat, nat>, itemId: nat, quantity: int)
    requires UniqueProducts(c.items)
    ensures var r, i := UpdateItem(c, products, itemId, quantity), FindId(c.items, itemId);
      && (i == |c.items| ==> r == Failure(CartItemNotFound))
      && (i < |c.items| && c.items[i].productId in products ==>
            (r.Failure? <==> quantity > products[c.items[i].productId])
            && (r.Failure? ==> r.error == OutOfStock(OnlyAvailable(products[c.items[i].productId]))))
    ensures KnownProducts(c.items, products) ==> UpdateItem(c, products, itemId, quantity) != Failure(MissingProduct)
    ensures var r, i := UpdateItem(c, products, itemId, quantity), FindId(c.items, itemId);
      r.Success? ==>
        && i < |c.items|
        && QtyOf(r.value.items, c.items[i].productId) == Some(quantity)
        && OthersKept(c.items, r.value.items, c.items[i].productId)
        && r.value.saved == c.saved && r.value.id == c.id && r.value.userId == c.userId
  {
    var r, i := UpdateItem(c, products, itemId, quantity), FindId(c.items, itemId);
    if r.Success? {
      FindProductOf(c.items, i);
      forall p ensures QtyOf(r.value.items, p) == if p == c.items[i].productId then Some(quantity) else QtyOf(c.items, p) {
        QtySetQty(c.items, i, quantity, p);
      }
    }
  }

  lemma UpdateKeepsInvariants(c: Cart, products: map<nat, nat>, itemId: nat, quantity: int, nextItem: nat, nextSaved: nat)
    requires WellFormed(c, products, nextItem, nextSaved) && quantity > 0
    ensures var r := UpdateItem(c, products, itemId, quantity);
      r.Success? ==> WellFormed(r.value, products, nextItem, nextSaved)
    ensures var r := UpdateItem(c, products, itemId, quantity);
      r.Success? && WithinStock(c.items, products) ==> WithinStock(r.value.items, products)
  {
    var r := UpdateItem(c, products, itemId, quantity);
    if r.Success? {
      LinesOkSetQty(c.items, products, nextItem, FindId(c.items, itemId), quantity);
    }
  }

  /** Removing fails for a line id this cart does not have; otherwise that line's product is
      no longer held and nothing else changes. */
  lemma RemoveOutcome(c: Cart, itemId: nat)
    requires UniqueProducts(c.items)
    ensures var r, i := RemoveItem(c, itemId), FindId(c.items, itemId);
      && (r.Failure? <==> i == |c.items|)
      && (r.Failure? ==> r.error == CartItemNotFound)
      && (r.Success? ==>
            && QtyOf(r.value.items, c.items[i].productId) == None
            && OthersKept(c.items, r.value.items, c.items[i].productId)
            && |r.value.items| == |c.items| - 1
            && r.value.saved == c.saved && r.value.id == c.id && r.value.userId == c.userId)
  {
    var r, i := RemoveItem(c, itemId), FindId(c.items, itemId);
    if r.Success? {
      forall p ensures QtyOf(r.value.items, p) == if p == c.items[i].productId then None else QtyOf(c.items, p) {
        QtyRemove(c.items, i, p);
      }
    }
  }

  lemma RemoveKeepsInvariants(c: Cart, products: map<nat, nat>, itemId: nat, nextItem: nat, nextSaved: nat)
    requires WellFormed(c, products, nextItem, nextSaved)
    ensures var r := RemoveItem(c, itemId);
      r.Success? ==> WellFormed(r.value, products, nextItem, nextSaved)
    ensures var r := RemoveItem(c, itemId);
      r.Success? && WithinStock(c.items, products) ==> WithinStock(r.value.items, products)
  {
    var r := RemoveItem(c, itemId);
    if r.Success? {
      LinesOkRemove(c.items, products, nextItem, FindId(c.items, itemId));
      if WithinStock(c.items, products) {
        StockRemove(c.items, products, FindId(c.items, itemId));
      }
    }
  }

  // ------------------------------------------------------------ merge

  /** One merge step on a known product: it then shows min(held + quantity, stock); an
      unknown product is skipped; nothing else changes. */
  lemma MergeEntryOutcome(c: Cart, products: map<nat, nat>, g: GuestEntry, newId: nat)
    ensures g.productId !in products ==> MergeEntry(c, products, g, newId) == c
    ensures var r := MergeEntry(c, products, g, newId);
      && (g.productId in products ==>
            QtyOf(r.items, g.productId) == Some(Min(Held(c.items, g.productId) + g.quantity, products[g.productId])))
      && OthersKept(c.items, r.items, g.productId)
      && r.saved == c.saved && r.id == c.id && r.userId == c.userId
  {
    var r := MergeEntry(c, products, g, newId);
    if g.productId in products {
      var i := FindProduct(c.items, g.productId);
      forall p ensures QtyOf(r.items, p) == if p == g.productId then Some(Min(Held(c.items, g.productId) + g.quantity, products[g.productId])) else QtyOf(c.items, p) {
        if i < |c.items| {
          QtySetQty(c.items, i, Min(c.items[i].quantity + g.quantity, products[g.productId]), p);
        } else {
          QtyAppend(c.items, Line(newId, g.productId, Min(g.quantity, products[g.productId])), p);
        }
      }
    }
  }

  /** The fold one entry further: what each turn of the merge loop does. */
  lemma MergeStep(c: Cart, products: map<nat, nat>, guest: seq<GuestEntry>, newId: nat, k: nat)
    requires k < |guest|
    ensures Merge(c, products, guest[..k + 1], newId) == MergeEntry(Merge(c, products, guest[..k], newId), products, guest[k], newId + k)
  {
    assert guest[..k + 1][..k] == guest[..k];
  }

  /** What the merge leaves for one product, from what it held and the guest entries for
      it alone: the reference the fold over the whole cart is checked against. */
  function MergedQty(held: Option<int>, stock: nat, guest: seq<GuestEntry>, p: nat): Option<int>
    decreases |guest|
  {
    if guest == [] then held
    else
      var last := |guest| - 1;
      var before := MergedQty(held, stock, guest[..last], p);
      if guest[last].productId != p then before
      else Some(Min(OrZero(before) + guest[last].quantity, stock))
  }

  /** The merge works product by product: each known product ends with MergedQty of its own
      entries, unknown ones are untouched, and the saved lines never change. */
  lemma {:induction false} MergePerProduct(c: Cart, products: map<nat, nat>, guest: seq<GuestEntry>, newId: nat, p: nat)
    ensures var r := Merge(c, products, guest, newId);
      && QtyOf(r.items, p) == (if p in products then MergedQty(QtyOf(c.items, p), products[p], guest, p) else QtyOf(c.items, p))
      && r.saved == c.saved && r.id == c.id && r.userId == c.userId
    decreases |guest|
  {
    if guest != [] {
      var last := |guest| - 1;
      var before := Merge(c, products, guest[..last], newId);
      MergePerProduct(c, products, guest[..last], newId, p);
      MergeEntryOutcome(before, products, guest[last], newId + last);
    }
  }

  /** Total quantity the guest entries carry for a product. */
  function SumFor(guest: seq<GuestEntry>, p: nat): int
    decreases |guest|
  {
    if guest == [] then 0
    else
      var last := |guest| - 1;
      SumFor(guest[..last], p) + (if guest[last].productId == p then guest[last].quantity else 0)
  }

  predicate Mentions(guest: seq<GuestEntry>, p: nat)
  {
    exists k :: 0 <= k < |guest| && guest[k].productId == p
  }

  predicate PositiveQuantities(guest: seq<GuestEntry>)
  {
    forall k :: 0 <= k < |guest| ==> guest[k].quantity > 0
  }

  /** A product the guest cart does not mention keeps what it held. */
  lemma {:induction false} MergedUnmentioned(held: Option<int>, stock: nat, guest: seq<GuestEntry>, p: nat)
    requires !Mentions(guest, p)
    ensures MergedQty(held, stock, guest, p) == held
    decreases |guest|
  {
    if guest != [] {
      var last := |guest| - 1;
      assert !Mentions(guest[..last], p) by {
        forall k | 0 <= k < last ensures guest[..last][k].productId != p {
          assert guest[..last][k] == guest[k];
        }
      }
      MergedUnmentioned(held, stock, guest[..last], p);
    }
  }

  /** A mentioned product always ends with a line, and never above its stock. */
  lemma {:induction false} MergedCapped(held: Option<int>, stock: nat, guest: seq<GuestEntry>, p: nat)
    requires Mentions(guest, p)
    ensures MergedQty(held, stock, guest, p).Some? && MergedQty(held, stock, guest, p).value <= stock
    decreases |guest|
  {
    var last := |guest| - 1;
    if guest[last].productId != p {
      var k :| 0 <= k < |guest| && guest[k].productId == p;
      assert guest[..last][k] == guest[k];
      MergedCapped(held, stock, guest[..last], p);
    }
  }

  /** A line already at stock stays at stock: positive entries cannot raise it. */
  lemma {:induction false} MergedAtStock(stock: nat, guest: seq<GuestEntry>, p: nat)
    requires PositiveQuantities(guest)
    ensures MergedQty(Some(stock), stock, guest, p) == Some(stock)
    decreases |guest|
  {
    if guest != [] {
      var last := |guest| - 1;
      MergedAtStock(stock, guest[..last], p);
    }
  }

  /** Re-merging into a cart line that is already at stock leaves it at stock. */
  lemma MergeAtStock(c: Cart, products: map<nat, nat>, guest: seq<GuestEntry>, newId: nat, p: nat)
    requires p in products && QtyOf(c.items, p) == Some(products[p]) && PositiveQuantities(guest)
    ensures QtyOf(Merge(c, products, guest, newId).items, p) == Some(products[p])
  {
    MergePerProduct(c, products, guest, newId, p);
    MergedAtStock(products[p], guest, p);
  }

  /** Below the stock cap the merge simply adds the guest quantities to what was held. */
  lemma {:induction false} MergedUncapped(held: Option<int>, stock: nat, guest: seq<GuestEntry>, p: nat)
    requires PositiveQuantities(guest) && OrZero(held) >= 0
    requires OrZero(held) + SumFor(guest, p) <= stock
    ensures MergedQty(held, stock, guest, p) == if Mentions(guest, p) then Some(OrZero(held) + SumFor(guest, p)) else held
    ensures SumFor(guest, p) >= 0 && (!Mentions(guest, p) ==> SumFor(guest, p) == 0)
    decreases |guest|
  {
    if guest == [] {
    } else {
      var last := |guest| - 1;
      var front := guest[..last];
      assert PositiveQuantities(front) by {
        forall k | 0 <= k < last ensures front[k].quantity > 0 {
          assert front[k] == guest[k];
        }
      }
      MergedUncapped(held, stock, front, p);
      assert Mentions(guest, p) <==> Mentions(front, p) || guest[last].productId == p by {
        forall k | 0 <= k < last ensures front[k] == guest[k] { }
      }
      if !Mentions(front, p) && guest[last].productId == p {
        assert MergedQty(held, stock, front, p) == held;
      }
    }
  }

  /** The merge keeps the cart well formed and, since every line it writes is capped, within
      stock; each entry uses up one id. */
  lemma {:induction false} MergeKeepsInvariants(c: Cart, products: map<nat, nat>, guest: seq<GuestEntry>, nextItem: nat, nextSaved: nat)
    requires WellFormed(c, products, nextItem, nextSaved) && PositiveQuantities(guest)
    ensures WellFormed(Merge(c, products, guest, nextItem), products, nextItem + |guest|, nextSaved)
    ensures WithinStock(c.items, products) ==> WithinStock(Merge(c, products, guest, nextItem).items, products)
    decreases |guest|
  {
    if guest != [] {
      var last := |guest| - 1;
      var front := guest[..last];
      assert PositiveQuantities(front) by {
        forall k | 0 <= k < last ensures front[k].quantity > 0 {
          assert front[k] == guest[k];
        }
      }
      var m := Merge(c, products, front, nextItem);
      assert Merge(c, products, guest, nextItem) == MergeEntry(m, products, guest[last], nextItem + last);
      MergeKeepsInvariants(c, products, front, nextItem, nextSaved);
      MergeEntryKeepsInvariants(m, products, guest[last], nextItem + last, nextSaved);
    }
  }

  lemma MergeEntryKeepsInvariants(c: Cart, products: map<nat, nat>, g: GuestEntry, nextItem: nat, nextSaved: nat)
    requires WellFormed(c, products, nextItem, nextSaved) && g.quantity > 0
    ensures WellFormed(MergeEntry(c, products, g, nextItem), products, nextItem + 1, nextSaved)
    ensures WithinStock(c.items, products) ==> WithinStock(MergeEntry(c, products, g, nextItem).items, products)
  {
    LinesOkRaise(c.items, products, nextItem, nextItem + 1);
    if g.productId in products {
      var stock, i := products[g.productId], FindProduct(c.items, g.productId);
      if i < |c.items| {
        LinesOkSetQty(c.items, products, nextItem + 1, i, Min(c.items[i].quantity + g.quantity, stock));
      } else {
        LinesOkAppend(c.items, products, nextItem, Line(nextItem, g.productId, Min(g.quantity, stock)));
      }
    }
  }

  /** A product with no stock left still gets a line, of quantity 0. */
  lemma MergeZeroStockExample()
    ensures Merge(Cart(1, 5, [], []), map[7 := 0], [GuestEntry(7, 3)], 10) == Cart(1, 5, [Line(10, 7, 0)], [])
  {
    assert [GuestEntry(7, 3)][..0] == [];
  }

  /** Two guest entries for one product fold into one line, capped at stock. */
  lemma MergeDuplicateExample()
    ensures Merge(Cart(1, 5, [], []), map[7 := 4], [GuestEntry(7, 2), GuestEntry(7, 3)], 10) == Cart(1, 5, [Line(10, 7, 4)], [])
  {
    var guest := [GuestEntry(7, 2), GuestEntry(7, 3)];
    assert guest[..1] == [GuestEntry(7, 2)];
    assert [GuestEntry(7, 2)][..0] == [];
    assert Merge(Cart(1, 5, [], []), map[7 := 4], [GuestEntry(7, 2)], 10) == Cart(1, 5, [Line(10, 7, 2)], []);
  }

  // ------------------------------------------------------------ saved for later

  /** Saving fails for a line id this cart does not have; otherwise the line's product leaves
      the cart and the saved list shows exactly the line's quantity for it (an earlier saved
      quantity is replaced, not added to); nothing else changes. */
  lemma SaveOutcome(c: Cart, itemId: nat, newId: nat)
    requires UniqueProducts(c.items)
    ensures var r, i := SaveForLater(c, itemId, newId), FindId(c.items, itemId);
      && (r.Failure? <==> i == |c.items|)
      && (r.Failure? ==> r.error == CartItemNotFound)
      && (r.Success? ==>
            var l := c.items[i];
            && QtyOf(r.value.items, l.productId) == None
            && OthersKept(c.items, r.value.items, l.productId)
            && QtyOf(r.value.saved, l.productId) == Some(l.quantity)
            && OthersKept(c.saved, r.value.saved, l.productId)
            && r.value.id == c.id && r.value.userId == c.userId)
  {
    var r, i := SaveForLater(c, itemId, newId), FindId(c.items, itemId);
    if r.Success? {
      var l := c.items[i];
      var j := FindProduct(c.saved, l.productId);
      forall p ensures QtyOf(r.value.items, p) == if p == l.productId then None else QtyOf(c.items, p) {
        QtyRemove(c.items, i, p);
      }
      forall p ensures QtyOf(r.value.saved, p) == if p == l.productId then Some(l.quantity) else QtyOf(c.saved, p) {
        if j < |c.saved| {
          QtySetQty(c.saved, j, l.quantity, p);
        } else {
          QtyAppend(c.saved, Line(newId, l.productId, l.quantity), p);
        }
      }
    }
  }

  lemma SaveKeepsInvariants(c: Cart, products: map<nat, nat>, itemId: nat, nextItem: nat, nextSaved: nat)
    requires WellFormed(c, products, nextItem, nextSaved)
    ensures var r := SaveForLater(c, itemId, nextSaved);
      r.Success? ==> WellFormed(r.value, products, nextItem, nextSaved + 1)
    ensures var r := SaveForLater(c, itemId, nextSaved);
      r.Success? && WithinStock(c.items, products) && WithinStock(c.saved, products) ==>
        WithinStock(r.value.items, products) && WithinStock(r.value.saved, products)
  {
    var r, i := SaveForLater(c, itemId, nextSaved), FindId(c.items, itemId);
    if r.Success? {
      var l := c.items[i];
      var j := FindProduct(c.saved, l.productId);
      LinesOkRemove(c.items, products, nextItem, i);
      if j < |c.saved| {
        LinesOkSetQty(c.saved, products, nextSaved, j, l.quantity);
        LinesOkRaise(r.value.saved, products, nextSaved, nextSaved + 1);
      } else {
        LinesOkAppend(c.saved, products, nextSaved, Line(nextSaved, l.productId, l.quantity));
      }
      if WithinStock(c.items, products) && WithinStock(c.saved, products) {
        StockRemove(c.items, products, i);
        if j < |c.saved| {
          StockSetQty(c.saved, products, j, l.quantity);
        }
      }
    }
  }

  /** Restoring fails for a saved id this cart does not have, and when the saved quantity,
      alone or added to what the cart holds, passes the stock; otherwise the product gains
      the saved quantity in the cart and leaves the saved list; nothing else changes. */
  lemma RestoreOutcome(c: Cart, products: map<nat, nat>, savedId: nat, newId: nat)
    requires UniqueProducts(c.saved)
    ensures var r, j := Restore(c, products, savedId, newId), FindId(c.saved, savedId);
      && (j == |c.saved| ==> r == Failure(SavedItemNotFound))
      && (j < |c.saved| && c.saved[j].productId in products ==>
            var s, stock := c.saved[j], products[c.saved[j].productId];
            && (r.Failure? <==> s.quantity > stock || Held(c.items, s.productId) + s.quantity > stock)
            && (r.Failure? ==> r.error == OutOfStock(OnlyAvailable(stock))))
    ensures KnownProducts(c.saved, products) ==> Restore(c, products, savedId, newId) != Failure(MissingProduct)
  {
  }

  /** What a successful restore changes, product by product. */
  lemma RestoreEffect(c: Cart, products: map<nat, nat>, savedId: nat, newId: nat)
    requires UniqueProducts(c.saved)
    ensures var r, j := Restore(c, products, savedId, newId), FindId(c.saved, savedId);
      r.Success? ==>
        && j < |c.saved|
        && var s := c.saved[j];
        && QtyOf(r.value.items, s.productId) == Some(Held(c.items, s.productId) + s.quantity)
        && OthersKept(c.items, r.value.items, s.productId)
        && QtyOf(r.value.saved, s.productId) == None
        && OthersKept(c.saved, r.value.saved, s.productId)
        && r.value.id == c.id && r.value.userId == c.userId
  {
    var r, j := Restore(c, products, savedId, newId), FindId(c.saved, savedId);
    if r.Success? {
      var s := c.saved[j];
      var i := FindProduct(c.items, s.productId);
      var items := if i < |c.items| then SetQty(c.items, i, c.items[i].quantity + s.quantity)
                   else c.items + [Line(newId, s.productId, s.quantity)];
      var saved := RemoveAt(c.saved, j);
      assert r.value == c.(items := items, saved := saved);
      if i < |c.items| {
        forall p ensures QtyOf(items, p) == if p == s.productId then Some(Held(c.items, s.productId) + s.quantity) else QtyOf(c.items, p) {
          QtySetQty(c.items, i, c.items[i].quantity + s.quantity, p);
        }
      } else {
        forall p ensures QtyOf(items, p) == if p == s.productId then Some(Held(c.items, s.productId) + s.quantity) else QtyOf(c.items, p) {
          QtyAppend(c.items, Line(newId, s.productId, s.quantity), p);
        }
      }
      forall p ensures QtyOf(saved, p) == if p == s.productId then None else QtyOf(c.saved, p) {
        QtyRemove(c.saved, j, p);
      }
    }
  }


  lemma RestoreKeepsInvariants(c: Cart, products: map<nat, nat>, savedId: nat, nextItem: nat, nextSaved: nat)
    requires WellFormed(c, products, nextItem, nextSaved)
    ensures var r := Restore(c, products, savedId, nextItem);
      r.Success? ==> WellFormed(r.value, products, nextItem + 1, nextSaved)
    ensures var r := Restore(c, products, savedId, nextItem);
      r.Success? && WithinStock(c.items, products) && WithinStock(c.saved, products) ==>
        WithinStock(r.value.items, products) && WithinStock(r.value.saved, products)
  {
    var r, j := Restore(c, products, savedId, nextItem), FindId(c.saved, savedId);
    if r.Success? {
      var s := c.saved[j];
      var i := FindProduct(c.items, s.productId);
      LinesOkRemove(c.saved, products, nextSaved, j);
      if i < |c.items| {
        LinesOkSetQty(c.items, products, nextItem, i, c.items[i].quantity + s.quantity);
        LinesOkRaise(r.value.items, products, nextItem, nextItem + 1);
      } else {
        LinesOkAppend(c.items, products, nextItem, Line(nextItem, s.productId, s.quantity));
      }
      if WithinStock(c.items, products) && WithinStock(c.saved, products) {
        StockRemove(c.saved, products, j);
        if i < |c.items| {
          StockSetQty(c.items, products, i, c.items[i].quantity + s.quantity);
        }
      }
    }
  }

  /** Removing a saved line fails for a saved id this cart does not have; otherwise that
      product leaves the saved list, and the cart lines are untouched. */
  lemma RemoveSavedOutcome(c: Cart, savedId: nat)
    requires UniqueProducts(c.saved)
    ensures var r, j := RemoveSaved(c, savedId), FindId(c.saved, savedId);
      && (r.Failure? <==> j == |c.saved|)
      && (r.Failure? ==> r.error == SavedItemNotFound)
      && (r.Success? ==>
            && QtyOf(r.value.saved, c.saved[j].productId) == None
            && OthersKept(c.saved, r.value.saved, c.saved[j].productId)
            && r.value.items == c.items && r.value.id == c.id && r.value.userId == c.userId)
  {
    var r, j := RemoveSaved(c, savedId), FindId(c.saved, savedId);
    if r.Success? {
      forall p ensures QtyOf(r.value.saved, p) == if p == c.saved[j].productId then None else QtyOf(c.saved, p) {
        QtyRemove(c.saved, j, p);
      }
    }
  }

  lemma RemoveSavedKeepsInvariants(c: Cart, products: map<nat, nat>, savedId: nat, nextItem: nat, nextSaved: nat)
    requires WellFormed(c, products, nextItem, nextSaved)
    ensures var r := RemoveSaved(c, savedId);
      r.Success? ==> WellFormed(r.value, products, nextItem, nextSaved)
    ensures var r := RemoveSaved(c, savedId);
      r.Success? && WithinStock(c.saved, products) ==> WithinStock(r.value.saved, products)
  {
    var r := RemoveSaved(c, savedId);
    if r.Success? {
      LinesOkRemove(c.saved, products, nextSaved, FindId(c.saved, savedId));
      if WithinStock(c.saved, products) {
        StockRemove(c.saved, products, FindId(c.saved, savedId));
      }
    }
  }

  /** Round trip: saving a cart line for a product not yet saved, then restoring it under the
      id it was saved as, succeeds and gives back the same saved list and the same quantity
      for every product in the cart. */
  lemma SaveThenRestore(c: Cart, products: map<nat, nat>, itemId: nat, nextItem: nat, nextSaved: nat)
    requires WellFormed(c, products, nextItem, nextSaved) && WithinStock(c.items, products)
    requires FindId(c.items, itemId) < |c.items|
    requires QtyOf(c.saved, c.items[FindId(c.items, itemId)].productId) == None
    ensures SaveForLater(c, itemId, nextSaved).Success?
    ensures var r := Restore(SaveForLater(c, itemId, nextSaved).value, products, nextSaved, nextItem);
      && r.Success?
      && r.value.saved == c.saved
      && forall p :: QtyOf(r.value.items, p) == QtyOf(c.items, p)
  {
    var i := FindId(c.items, itemId);
    var l := c.items[i];
    var saved1 := SaveForLater(c, itemId, nextSaved).value;
    assert saved1.saved == c.saved + [Line(nextSaved, l.productId, l.quantity)];
    assert FindId(saved1.saved, nextSaved) == |c.saved| by {
      assert forall k :: 0 <= k < |c.saved| ==> saved1.saved[k].id == c.saved[k].id < nextSaved;
    }
    assert QtyOf(saved1.items, l.productId) == None by {
      QtyRemove(c.items, i, l.productId);
    }
    var r := Restore(saved1, products, nextSaved, nextItem);
    assert r.Success?;
    assert r.value.saved == c.saved by {
      assert RemoveAt(saved1.saved, |c.saved|) == c.saved;
    }
    forall p ensures QtyOf(r.value.items, p) == QtyOf(c.items, p) {
      QtyRemove(c.items, i, p);
      QtyAppend(saved1.items, Line(nextItem, l.productId, l.quantity), p);
      if p == l.productId {
        FindProductOf(c.items, i);
      }
    }
  }
}
