/** The cart routes over the database: every handler first gets or creates the user's cart
    (committing a new one at once), then finds and changes rows step by step. Each method
    is proved to leave exactly the cart the CartLines function of the same handler
    describes, so every lemma there speaks about these methods too. */
module CartRoutes {
  import opened Wrappers
  import opened CartLines

  /** `.filter(product_id == p).first()` over a cart's lines. */
  method FindLineByProduct(lines: seq<Line>, productId: nat) returns (i: nat)
    ensures i == FindProduct(lines, productId)
  {
    i := 0;
    while i < |lines| && lines[i].productId != productId
      invariant i <= |lines|
      invariant forall j :: 0 <= j < i ==> lines[j].productId != productId
    {
      i := i + 1;
    }
    FindProductIs(lines, productId, i);
  }

  /** `.filter(id == item_id, cart_id == cart.id).first()`. */
  method FindLineById(lines: seq<Line>, id: nat) returns (i: nat)
    ensures i == FindId(lines, id)
  {
    i := 0;
    while i < |lines| && lines[i].id != id
      invariant i <= |lines|
      invariant forall j :: 0 <= j < i ==> lines[j].id != id
    {
      i := i + 1;
    }
    FindIdIs(lines, id, i);
  }

  /** The tables' invariant: one cart per user, distinct cart ids, ids below the counters,
      every cart well formed and within stock. */
  ghost predicate CartsOk(carts: map<nat, Cart>, products: map<nat, nat>, nextCart: nat, nextItem: nat, nextSaved: nat)
  {
    && (forall u :: u in carts ==>
          && carts[u].userId == u && carts[u].id < nextCart
          && WellFormed(carts[u], products, nextItem, nextSaved)
          && WithinStock(carts[u].items, products) && WithinStock(carts[u].saved, products))
    && (forall u, v :: u in carts && v in carts && carts[u].id == carts[v].id ==> u == v)
  }

  /** The cart `get_or_create_cart` hands a handler: the user's stored cart, or the empty
      one it creates with the next cart id. */
  function CartFor(carts: map<nat, Cart>, nextCart: nat, userId: nat): (c: Cart)
    ensures userId in carts ==> c == carts[userId]
    ensures userId !in carts ==> c.id == nextCart && c.userId == userId && c.items == [] && c.saved == []
  {
    if userId in carts then carts[userId] else Cart(nextCart, userId, [], [])
  }

  /** The cart-id counter after get-or-create: one id is used up exactly when a cart is created. */
  function NextCart(carts: map<nat, Cart>, nextCart: nat, userId: nat): nat
  {
    if userId in carts then nextCart else nextCart + 1
  }

  /** The cart a handler leaves behind: the changed one on success; on failure the one
      get-or-create committed. */
  function After(cart: Cart, result: Result<Cart, CartError>): Cart
  {
    if result.Success? then result.value else cart
  }

  /** Replacing one user's cart by a well-formed one of the same id keeps the invariant. */
  lemma CartsOkUpdate(carts: map<nat, Cart>, products: map<nat, nat>, nextCart: nat, nextItem: nat, nextSaved: nat,
                      userId: nat, c: Cart, nextItem': nat, nextSaved': nat)
    requires CartsOk(carts, products, nextCart, nextItem, nextSaved) && nextItem <= nextItem' && nextSaved <= nextSaved'
    requires userId in carts && c.id == carts[userId].id && c.userId == userId
    requires WellFormed(c, products, nextItem', nextSaved')
    requires WithinStock(c.items, products) && WithinStock(c.saved, products)
    ensures CartsOk(carts[userId := c], products, nextCart, nextItem', nextSaved')
  {
    forall u | u in carts {
      WellFormedRaise(carts[u], products, nextItem, nextSaved, nextItem', nextSaved');
    }
  }

  /** Get-or-create keeps the invariant: a user without a cart gets an empty one whose id
      no other cart has. */
  lemma CreateKeepsStore(carts: map<nat, Cart>, products: map<nat, nat>, nextCart: nat, nextItem: nat, nextSaved: nat,
                         userId: nat)
    requires CartsOk(carts, products, nextCart, nextItem, nextSaved)
    ensures CartsOk(carts[userId := CartFor(carts, nextCart, userId)], products, NextCart(carts, nextCart, userId),
                    nextItem, nextSaved)
  {
    if userId in carts {
      assert carts[userId := carts[userId]] == carts;
    }
  }

  /** What the invariant says of the cart a handler gets. */
  lemma CartFacts(carts: map<nat, Cart>, products: map<nat, nat>, nextCart: nat, nextItem: nat, nextSaved: nat, userId: nat)
    requires CartsOk(carts, products, nextCart, nextItem, nextSaved)
    ensures var c := CartFor(carts, nextCart, userId);
      && c.userId == userId
      && WellFormed(c, products, nextItem, nextSaved)
      && WithinStock(c.items, products) && WithinStock(c.saved, products)
  {
  }

  /** A handler outcome that keeps the cart well formed and within stock keeps the whole
      store's invariant, get-or-create included. */
  lemma StoreAfter(carts: map<nat, Cart>, products: map<nat, nat>, nextCart: nat, nextItem: nat, nextSaved: nat,
                   userId: nat, result: Result<Cart, CartError>, nextItem': nat, nextSaved': nat)
    requires CartsOk(carts, products, nextCart, nextItem, nextSaved) && nextItem <= nextItem' && nextSaved <= nextSaved'
    requires var c := CartFor(carts, nextCart, userId);
      result.Success? ==>
        && result.value.id == c.id && result.value.userId == userId
        && WellFormed(result.value, products, nextItem', nextSaved')
        && WithinStock(result.value.items, products) && WithinStock(result.value.saved, products)
    ensures CartsOk(carts[userId := After(CartFor(carts, nextCart, userId), result)], products,
                    NextCart(carts, nextCart, userId), nextItem', nextSaved')
  {
    var c := CartFor(carts, nextCart, userId);
    var created := carts[userId := c];
    CreateKeepsStore(carts, products, nextCart, nextItem, nextSaved, userId);
    CartsOkUpdate(created, products, NextCart(carts, nextCart, userId), nextItem, nextSaved, userId,
                  After(c, result), nextItem', nextSaved');
    assert created[userId := After(c, result)] == carts[userId := After(c, result)];
  }

  /** An add keeps the store's invariant: one cart per user, distinct cart ids, every cart
      well formed and within stock; one cart-line id is used up. */
  lemma AddKeepsStore(carts: map<nat, Cart>, products: map<nat, nat>, nextCart: nat, nextItem: nat, nextSaved: nat,
                      userId: nat, productId: nat, quantity: int)
    requires CartsOk(carts, products, nextCart, nextItem, nextSaved) && quantity > 0
    ensures var c := CartFor(carts, nextCart, userId);
      CartsOk(carts[userId := After(c, AddItem(c, products, productId, quantity, nextItem))], products,
              NextCart(carts, nextCart, userId), nextItem + 1, nextSaved)
  {
    var c := CartFor(carts, nextCart, userId);
    CartFacts(carts, products, nextCart, nextItem, nextSaved, userId);
    AddKeepsInvariants(c, products, productId, quantity, nextItem, nextSaved);
    StoreAfter(carts, products, nextCart, nextItem, nextSaved, userId,
               AddItem(c, products, productId, quantity, nextItem), nextItem + 1, nextSaved);
  }

  /** A merge keeps the store's invariant, one cart-line id used up per guest entry. */
  lemma MergeKeepsStore(carts: map<nat, Cart>, products: map<nat, nat>, nextCart: nat, nextItem: nat, nextSaved: nat,
                        userId: nat, guest: seq<GuestEntry>)
    requires CartsOk(carts, products, nextCart, nextItem, nextSaved) && PositiveQuantities(guest)
    ensures var c := CartFor(carts, nextCart, userId);
      CartsOk(carts[userId := Merge(c, products, guest, nextItem)], products,
              NextCart(carts, nextCart, userId), nextItem + |guest|, nextSaved)
  {
    var c := CartFor(carts, nextCart, userId);
    CartFacts(carts, products, nextCart, nextItem, nextSaved, userId);
    MergeKeepsInvariants(c, products, guest, nextItem, nextSaved);
    MergePerProduct(c, products, guest, nextItem, 0);
    StoreAfter(carts, products, nextCart, nextItem, nextSaved, userId,
               Success(Merge(c, products, guest, nextItem)), nextItem + |guest|, nextSaved);
  }

  /** An update keeps the store's invariant. */
  lemma UpdateKeepsStore(carts: map<nat, Cart>, products: map<nat, nat>, nextCart: nat, nextItem: nat, nextSaved: nat,
      userId: nat, itemId: nat, quantity: int)
    requires CartsOk(carts, products, nextCart, nextItem, nextSaved) && quantity > 0
    ensures var c := CartFor(carts, nextCart, userId);
      CartsOk(carts[userId := After(c, UpdateItem(c, products, itemId, quantity))], products, NextCart(carts, nextCart, userId), nextItem, nextSaved)
  {
    var c := CartFor(carts, nextCart, userId);
    CartFacts(carts, products, nextCart, nextItem, nextSaved, userId);
    UpdateKeepsInvariants(c, products, itemId, quantity, nextItem, nextSaved);
    StoreAfter(carts, products, nextCart, nextItem, nextSaved, userId, UpdateItem(c, products, itemId, quantity), nextItem, nextSaved);
  }

  /** A removal keeps the store's invariant. */
  lemma RemoveKeepsStore(carts: map<nat, Cart>, products: map<nat, nat>, nextCart: nat, nextItem: nat, nextSaved: nat,
      userId: nat, itemId: nat)
    requires CartsOk(carts, products, nextCart, nextItem, nextSaved)
    ensures var c := CartFor(carts, nextCart, userId);
      CartsOk(carts[userId := After(c, RemoveItem(c, itemId))], products, NextCart(carts, nextCart, userId), nextItem, nextSaved)
  {
    var c := CartFor(carts, nextCart, userId);
    CartFacts(carts, products, nextCart, nextItem, nextSaved, userId);
    RemoveKeepsInvariants(c, products, itemId, nextItem, nextSaved);
    StoreAfter(carts, products, nextCart, nextItem, nextSaved, userId, RemoveItem(c, itemId), nextItem, nextSaved);
  }

  /** A save for later keeps the store's invariant, one saved-line id used up. */
  lemma SaveKeepsStore(carts: map<nat, Cart>, products: map<nat, nat>, nextCart: nat, nextItem: nat, nextSaved: nat,
      userId: nat, itemId: nat)
    requires CartsOk(carts, products, nextCart, nextItem, nextSaved)
    ensures var c := CartFor(carts, nextCart, userId);
      CartsOk(carts[userId := After(c, SaveForLater(c, itemId, nextSaved))], products, NextCart(carts, nextCart, userId), nextItem, nextSaved + 1)
  {
    var c := CartFor(carts, nextCart, userId);
    CartFacts(carts, products, nextCart, nextItem, nextSaved, userId);
    SaveKeepsInvariants(c, products, itemId, nextItem, nextSaved);
    StoreAfter(carts, products, nextCart, nextItem, nextSaved, userId, SaveForLater(c, itemId, nextSaved), nextItem, nextSaved + 1);
  }

  /** A restore keeps the store's invariant, one cart-line id used up. */
  lemma RestoreKeepsStore(carts: map<nat, Cart>, products: map<nat, nat>, nextCart: nat, nextItem: nat, nextSaved: nat,
      userId: nat, savedId: nat)
    requires CartsOk(carts, products, nextCart, nextItem, nextSaved)
    ensures var c := CartFor(carts, nextCart, userId);
      CartsOk(carts[userId := After(c, Restore(c, products, savedId, nextItem))], products, NextCart(carts, nextCart, userId), nextItem + 1, nextSaved)
  {
    var c := CartFor(carts, nextCart, userId);
    CartFacts(carts, products, nextCart, nextItem, nextSaved, userId);
    RestoreKeepsInvariants(c, products, savedId, nextItem, nextSaved);
    StoreAfter(carts, products, nextCart, nextItem, nextSaved, userId, Restore(c, products, savedId, nextItem), nextItem + 1, nextSaved);
  }

  /** Removing a saved line keeps the store's invariant. */
  lemma RemoveSavedKeepsStore(carts: map<nat, Cart>, products: map<nat, nat>, nextCart: nat, nextItem: nat, nextSaved: nat,
      userId: nat, savedId: nat)
    requires CartsOk(carts, products, nextCart, nextItem, nextSaved)
    ensures var c := CartFor(carts, nextCart, userId);
      CartsOk(carts[userId := After(c, RemoveSaved(c, savedId))], products, NextCart(carts, nextCart, userId), nextItem, nextSaved)
  {
    var c := CartFor(carts, nextCart, userId);
    CartFacts(carts, products, nextCart, nextItem, nextSaved, userId);
    RemoveSavedKeepsInvariants(c, products, savedId, nextItem, nextSaved);
    StoreAfter(carts, products, nextCart, nextItem, nextSaved, userId, RemoveSaved(c, savedId), nextItem, nextSaved);
  }

  /** Clearing keeps the store's invariant. */
  lemma ClearKeepsStore(carts: map<nat, Cart>, products: map<nat, nat>, nextCart: nat, nextItem: nat, nextSaved: nat,
      userId: nat)
    requires CartsOk(carts, products, nextCart, nextItem, nextSaved)
    ensures var c := CartFor(carts, nextCart, userId);
      CartsOk(carts[userId := Clear(c)], products, NextCart(carts, nextCart, userId), nextItem, nextSaved)
  {
    var c := CartFor(carts, nextCart, userId);
    CartFacts(carts, products, nextCart, nextItem, nextSaved, userId);
    StoreAfter(carts, products, nextCart, nextItem, nextSaved, userId, Success(Clear(c)), nextItem, nextSaved);
  }

  // ------------------------------------------------------------ the handlers' row work, on one cart

  method AddLine(cart: Cart, products: map<nat, nat>, productId: nat, quantity: int, newId: nat)
    returns (result: Result<Cart, CartError>)
    ensures result == AddItem(cart, products, productId, quantity, newId)
  {
    if productId !in products {
      return Failure(OutOfStock(ProductNotFound));
    }
    var stock := products[productId];
    var i := FindLineByProduct(cart.items, productId);
    if i < |cart.items| {
      var total := cart.items[i].quantity + quantity;
      if total > stock {
        result := Failure(OutOfStock(OnlyAvailableHeld(stock, cart.items[i].quantity)));
      } else {
        result := Success(cart.(items := cart.items[i := cart.items[i].(quantity := total)]));
      }
    } else if quantity > stock {
      result := Failure(OutOfStock(OnlyAvailable(stock)));
    } else {
      result := Success(cart.(items := cart.items + [Line(newId, productId, quantity)]));
    }
  }

  method UpdateLine(cart: Cart, products: map<nat, nat>, itemId: nat, quantity: int)
    returns (result: Result<Cart, CartError>)
    ensures result == UpdateItem(cart, products, itemId, quantity)
  {
    var i := FindLineById(cart.items, itemId);
    if i == |cart.items| {
      result := Failure(CartItemNotFound);
    } else if cart.items[i].productId !in products {
      result := Failure(MissingProduct);
    } else if quantity > products[cart.items[i].productId] {
      result := Failure(OutOfStock(OnlyAvailable(products[cart.items[i].productId])));
    } else {
      result := Success(cart.(items := cart.items[i := cart.items[i].(quantity := quantity)]));
    }
  }

  method RemoveLine(cart: Cart, itemId: nat) returns (result: Result<Cart, CartError>)
    ensures result == RemoveItem(cart, itemId)
  {
    var i := FindLineById(cart.items, itemId);
    if i == |cart.items| {
      result := Failure(CartItemNotFound);
    } else {
      result := Success(cart.(items := cart.items[..i] + cart.items[i + 1..]));
    }
  }

  /** The body of the merge loop for one guest entry. */
  method MergeLine(cart: Cart, products: map<nat, nat>, g: GuestEntry, newId: nat) returns (r: Cart)
    ensures r == MergeEntry(cart, products, g, newId)
  {
    r := cart;
    if g.productId in products {
      var stock := products[g.productId];
      var i := FindLineByProduct(cart.items, g.productId);
      if i < |cart.items| {
        r := cart.(items := cart.items[i := cart.items[i].(quantity := Min(cart.items[i].quantity + g.quantity, stock))]);
      } else {
        r := cart.(items := cart.items + [Line(newId, g.productId, Min(g.quantity, stock))]);
      }
    }
  }

  /** The loop of `merge_guest_cart`: entry k is merged into the cart the earlier entries left,
      and may take the line id `first + k`. */
  method MergeLines(start: Cart, products: map<nat, nat>, guest: seq<GuestEntry>, first: nat) returns (cart: Cart)
    ensures cart == Merge(start, products, guest, first)
  {
    cart := start;
    var k := 0;
    while k < |guest|
      invariant k <= |guest|
      invariant cart == Merge(start, products, guest[..k], first)
    {
      cart := MergeLine(cart, products, guest[k], first + k);
      MergeStep(start, products, guest, first, k);
      k := k + 1;
    }
    assert guest[..k] == guest;
  }

  method SaveLine(cart: Cart, itemId: nat, newId: nat) returns (result: Result<Cart, CartError>)
    ensures result == SaveForLater(cart, itemId, newId)
  {
    var i := FindLineById(cart.items, itemId);
    if i == |cart.items| {
      return Failure(CartItemNotFound);
    }
    var line := cart.items[i];
    var j := FindLineByProduct(cart.saved, line.productId);
    var saved := if j < |cart.saved| then cart.saved[j := cart.saved[j].(quantity := line.quantity)]
                 else cart.saved + [Line(newId, line.productId, line.quantity)];
    result := Success(cart.(items := cart.items[..i] + cart.items[i + 1..], saved := saved));
  }

  method RestoreLine(cart: Cart, products: map<nat, nat>, savedId: nat, newId: nat)
    returns (result: Result<Cart, CartError>)
    ensures result == Restore(cart, products, savedId, newId)
  {
    var j := FindLineById(cart.saved, savedId);
    if j == |cart.saved| {
      return Failure(SavedItemNotFound);
    }
    var s := cart.saved[j];
    if s.productId !in products {
      return Failure(MissingProduct);
    }
    var stock := products[s.productId];
    if s.quantity > stock {
      return Failure(OutOfStock(OnlyAvailable(stock)));
    }
    var i := FindLineByProduct(cart.items, s.productId);
    if i < |cart.items| {
      if cart.items[i].quantity + s.quantity > stock {
        return Failure(OutOfStock(OnlyAvailable(stock)));
      }
      result := Success(cart.(items := cart.items[i := cart.items[i].(quantity := cart.items[i].quantity + s.quantity)],
                              saved := cart.saved[..j] + cart.saved[j + 1..]));
    } else {
      result := Success(cart.(items := cart.items + [Line(newId, s.productId, s.quantity)],
                              saved := cart.saved[..j] + cart.saved[j + 1..]));
    }
  }

  method RemoveSavedLine(cart: Cart, savedId: nat) returns (result: Result<Cart, CartError>)
    ensures result == RemoveSaved(cart, savedId)
  {
    var j := FindLineById(cart.saved, savedId);
    if j == |cart.saved| {
      result := Failure(SavedItemNotFound);
    } else {
      result := Success(cart.(saved := cart.saved[..j] + cart.saved[j + 1..]));
    }
  }

  class CartStore {
    /** Product id to stock; no cart handler writes it. */
    const products: map<nat, nat>
    /** User id to that user's cart. */
    var carts: map<nat, Cart>
    var nextCartId: nat
    var nextItemId: nat
    var nextSavedId: nat

    ghost predicate Valid()
      reads this
    {
      CartsOk(carts, products, nextCartId, nextItemId, nextSavedId)
    }

    constructor (products: map<nat, nat>)
      ensures this.products == products && carts == map[]
      ensures nextCartId == 0 && nextItemId == 0 && nextSavedId == 0
      ensures Valid()
    {
      this.products := products;
      carts := map[];
      nextCartId := 0;
      nextItemId := 0;
      nextSavedId := 0;
    }

    /** The cart `get_or_create_cart` returns: the stored one, or the empty one it would create. */
    function CartOf(userId: nat): Cart
      reads this
    {
      CartFor(carts, nextCartId, userId)
    }

    /** `get_or_create_cart`, which is also all of `get_cart`. */
    method GetOrCreateCart(userId: nat) returns (cart: Cart)
      requires Valid()
      modifies this
      ensures cart == old(CartOf(userId)) && carts == old(carts)[userId := cart]
      ensures nextCartId == old(nextCartId) + (if userId in old(carts) then 0 else 1)
      ensures nextItemId == old(nextItemId) && nextSavedId == old(nextSavedId)
      ensures Valid()
    {
      if userId in carts {
        cart := carts[userId];
      } else {
        cart := Cart(nextCartId, userId, [], []);
      }
      CreateKeepsStore(carts, products, nextCartId, nextItemId, nextSavedId, userId);
      carts, nextCartId := carts[userId := cart], NextCart(carts, nextCartId, userId);
    }

    /** `add_to_cart`, after its get-or-create: each call reserves one cart-line id. */
    method AddToCart(userId: nat, productId: nat, quantity: int) returns (result: Result<Cart, CartError>)
      requires Valid() && productId > 0 && quantity > 0
      modifies this
      ensures result == AddItem(old(CartOf(userId)), products, productId, quantity, old(nextItemId))
      ensures carts == old(carts)[userId := After(old(CartOf(userId)), result)]
      ensures nextCartId == old(nextCartId) + (if userId in old(carts) then 0 else 1)
      ensures nextItemId == old(nextItemId) + 1 && nextSavedId == old(nextSavedId)
      ensures Valid()
    {
      var cart := CartOf(userId);
      result := AddLine(cart, products, productId, quantity, nextItemId);
      AddKeepsStore(carts, products, nextCartId, nextItemId, nextSavedId, userId, productId, quantity);
      carts, nextCartId, nextItemId := carts[userId := After(cart, result)], NextCart(carts, nextCartId, userId), nextItemId + 1;
    }

    /** `update_cart_item`, after its get-or-create. */
    method UpdateCartItem(userId: nat, itemId: nat, quantity: int) returns (result: Result<Cart, CartError>)
      requires Valid() && quantity > 0
      modifies this
      ensures result == UpdateItem(old(CartOf(userId)), products, itemId, quantity)
      ensures carts == old(carts)[userId := After(old(CartOf(userId)), result)]
      ensures nextCartId == old(nextCartId) + (if userId in old(carts) then 0 else 1)
      ensures nextItemId == old(nextItemId) && nextSavedId == old(nextSavedId)
      ensures Valid()
    {
      var cart := CartOf(userId);
      result := UpdateLine(cart, products, itemId, quantity);
      UpdateKeepsStore(carts, products, nextCartId, nextItemId, nextSavedId, userId, itemId, quantity);
      carts, nextCartId := carts[userId := After(cart, result)], NextCart(carts, nextCartId, userId);
    }

    /** `remove_cart_item`, after its get-or-create. */
    method RemoveCartItem(userId: nat, itemId: nat) returns (result: Result<Cart, CartError>)
      requires Valid()
      modifies this
      ensures result == RemoveItem(old(CartOf(userId)), itemId)
      ensures carts == old(carts)[userId := After(old(CartOf(userId)), result)]
      ensures nextCartId == old(nextCartId) + (if userId in old(carts) then 0 else 1)
      ensures nextItemId == old(nextItemId) && nextSavedId == old(nextSavedId)
      ensures Valid()
    {
      var cart := CartOf(userId);
      result := RemoveLine(cart, itemId);
      RemoveKeepsStore(carts, products, nextCartId, nextItemId, nextSavedId, userId, itemId);
      carts, nextCartId := carts[userId := After(cart, result)], NextCart(carts, nextCartId, userId);
    }

    /** `merge_guest_cart`, after its get-or-create: one pass over the guest entries, changing
        the cart's lines as it goes and committing once at the end; each entry reserves one
        cart-line id. It never fails. */
    method MergeGuestCart(userId: nat, guest: seq<GuestEntry>) returns (cart: Cart)
      requires Valid() && PositiveQuantities(guest)
      requires forall k :: 0 <= k < |guest| ==> guest[k].productId > 0
      modifies this
      ensures cart == Merge(old(CartOf(userId)), products, guest, old(nextItemId))
      ensures carts == old(carts)[userId := cart]
      ensures nextCartId == old(nextCartId) + (if userId in old(carts) then 0 else 1)
      ensures nextItemId == old(nextItemId) + |guest| && nextSavedId == old(nextSavedId)
      ensures Valid()
    {
      cart := MergeLines(CartOf(userId), products, guest, nextItemId);
      MergeKeepsStore(carts, products, nextCartId, nextItemId, nextSavedId, userId, guest);
      carts, nextCartId, nextItemId := carts[userId := cart], NextCart(carts, nextCartId, userId), nextItemId + |guest|;
    }

    /** `save_for_later`, after its get-or-create: each call reserves one saved-line id. */
    method SaveForLaterItem(userId: nat, itemId: nat) returns (result: Result<Cart, CartError>)
      requires Valid()
      modifies this
      ensures result == SaveForLater(old(CartOf(userId)), itemId, old(nextSavedId))
      ensures carts == old(carts)[userId := After(old(CartOf(userId)), result)]
      ensures nextCartId == old(nextCartId) + (if userId in old(carts) then 0 else 1)
      ensures nextItemId == old(nextItemId) && nextSavedId == old(nextSavedId) + 1
      ensures Valid()
    {
      var cart := CartOf(userId);
      result := SaveLine(cart, itemId, nextSavedId);
      SaveKeepsStore(carts, products, nextCartId, nextItemId, nextSavedId, userId, itemId);
      carts, nextCartId, nextSavedId := carts[userId := After(cart, result)], NextCart(carts, nextCartId, userId), nextSavedId + 1;
    }

    /** `restore_saved_item`, after its get-or-create: each call reserves one cart-line id. */
    method RestoreSavedItem(userId: nat, savedId: nat) returns (result: Result<Cart, CartError>)
      requires Valid()
      modifies this
      ensures result == Restore(old(CartOf(userId)), products, savedId, old(nextItemId))
      ensures carts == old(carts)[userId := After(old(CartOf(userId)), result)]
      ensures nextCartId == old(nextCartId) + (if userId in old(carts) then 0 else 1)
      ensures nextItemId == old(nextItemId) + 1 && nextSavedId == old(nextSavedId)
      ensures Valid()
    {
      var cart := CartOf(userId);
      result := RestoreLine(cart, products, savedId, nextItemId);
      RestoreKeepsStore(carts, products, nextCartId, nextItemId, nextSavedId, userId, savedId);
      carts, nextCartId, nextItemId := carts[userId := After(cart, result)], NextCart(carts, nextCartId, userId), nextItemId + 1;
    }

    /** `remove_saved_item`, after its get-or-create. */
    method RemoveSavedItem(userId: nat, savedId: nat) returns (result: Result<Cart, CartError>)
      requires Valid()
      modifies this
      ensures result == RemoveSaved(old(CartOf(userId)), savedId)
      ensures carts == old(carts)[userId := After(old(CartOf(userId)), result)]
      ensures nextCartId == old(nextCartId) + (if userId in old(carts) then 0 else 1)
      ensures nextItemId == old(nextItemId) && nextSavedId == old(nextSavedId)
      ensures Valid()
    {
      var cart := CartOf(userId);
      result := RemoveSavedLine(cart, savedId);
      RemoveSavedKeepsStore(carts, products, nextCartId, nextItemId, nextSavedId, userId, savedId);
      carts, nextCartId := carts[userId := After(cart, result)], NextCart(carts, nextCartId, userId);
    }

    /** `clear_cart`, after its get-or-create: deletes the cart lines, keeps the saved ones. */
    method ClearCart(userId: nat)
      requires Valid()
      modifies this
      ensures carts == old(carts)[userId := Clear(old(CartOf(userId)))]
      ensures nextCartId == old(nextCartId) + (if userId in old(carts) then 0 else 1)
      ensures nextItemId == old(nextItemId) && nextSavedId == old(nextSavedId)
      ensures Valid()
    {
      var cart := Clear(CartOf(userId));
      ClearKeepsStore(carts, products, nextCartId, nextItemId, nextSavedId, userId);
      carts, nextCartId := carts[userId := cart], NextCart(carts, nextCartId, userId);
    }
  }
}
