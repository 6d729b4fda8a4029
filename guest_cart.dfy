/** The guest cart kept in the browser: a list of (product, quantity) entries that the
    add, update and remove helpers read from storage, change and write back. */
module GuestCartStorage {

  datatype GuestCartItem = GuestCartItem(productId: int, quantity: int)

  /** The position `find` stops at: the first entry for `productId`, or |items| when none. */
  function IndexOf(items: seq<GuestCartItem>, productId: int): (i: nat)
    ensures i <= |items|
    ensures i < |items| ==> items[i].productId == productId
    ensures forall j :: 0 <= j < i ==> items[j].productId != productId
  {
    if items == [] then 0
    else if items[0].productId == productId then 0
    else 1 + IndexOf(items[1..], productId)
  }

  predicate Holds(items: seq<GuestCartItem>, productId: int)
  {
    exists j :: 0 <= j < |items| && items[j].productId == productId
  }

  /** At most one entry per product. */
  predicate Unique(items: seq<GuestCartItem>)
  {
    forall i, j :: 0 <= i < |items| && 0 <= j < |items| && items[i].productId == items[j].productId ==> i == j
  }

  /** The quantity the cart shows for a product: its first entry's, or 0. */
  function QuantityOf(items: seq<GuestCartItem>, productId: int): int
  {
    var i := IndexOf(items, productId);
    if i < |items| then items[i].quantity else 0
  }

  /** The list `addToGuestCart` stores. */
  function Added(items: seq<GuestCartItem>, productId: int, quantity: int): seq<GuestCartItem>
  {
    var i := IndexOf(items, productId);
    if i < |items| then items[i := items[i].(quantity := items[i].quantity + quantity)]
    else items + [GuestCartItem(productId, quantity)]
  }

  /** The list `updateGuestCartItem` leaves in storage. */
  function Updated(items: seq<GuestCartItem>, productId: int, quantity: int): seq<GuestCartItem>
  {
    var i := IndexOf(items, productId);
    if i < |items| then items[i := items[i].(quantity := quantity)] else items
  }

  /** `removeFromGuestCart`: the filter keeping every entry for another product. */
  function Without(items: seq<GuestCartItem>, productId: int): (r: seq<GuestCartItem>)
    ensures |r| <= |items|
    ensures forall k :: 0 <= k < |r| ==> r[k].productId != productId
    ensures forall k :: 0 <= k < |r| ==> r[k] in items
  {
    if items == [] then []
    else if items[0].productId == productId then Without(items[1..], productId)
    else [items[0]] + Without(items[1..], productId)
  }

  /** The stored list, between a read and the write that follows it. */
  class GuestCart {
    var items: seq<GuestCartItem>

    /** `getStoredCart`: starts from the list storage holds. */
    constructor (stored: seq<GuestCartItem>)
      ensures items == stored
    {
      items := stored;
    }

    /** `cart.find(item => item.product_id === productId)`, as a position. */
    method Find(productId: int) returns (i: nat)
      ensures i == IndexOf(items, productId)
      ensures i < |items| <==> Holds(items, productId)
    {
      i := 0;
      while i < |items| && items[i].productId != productId
        invariant i <= |items|
        invariant forall j :: 0 <= j < i ==> items[j].productId != productId
      {
        i := i + 1;
      }
    }

    /** `addToGuestCart`: increment the found entry in place, or push a new one. */
    method Add(productId: int, quantity: int)
      modifies this
      ensures items == Added(old(items), productId, quantity)
    {
      var i := Find(productId);
      if i < |items| {
        items := items[i := items[i].(quantity := items[i].quantity + quantity)];
      } else {
        items := items + [GuestCartItem(productId, quantity)];
      }
    }

    /** `updateGuestCartItem`: set the found entry's quantity; without one nothing is written. */
    method Update(productId: int, quantity: int)
      modifies this
      ensures items == Updated(old(items), productId, quantity)
    {
      var i := Find(productId);
      if i < |items| {
        items := items[i := items[i].(quantity := quantity)];
      }
    }

    /** `removeFromGuestCart`: store the filtered list. */
    method Remove(productId: int)
      modifies this
      ensures items == Without(old(items), productId)
    {
      items := Without(items, productId);
    }
  }

  // ------------------------------------------------------------ add

  /** Adding a product already present adds to that entry only: same length, same order,
      every other entry untouched. */
  lemma AddPresent(items: seq<GuestCartItem>, productId: int, quantity: int)
    requires Holds(items, productId)
    ensures var r, i := Added(items, productId, quantity), IndexOf(items, productId);
      && |r| == |items| && i < |items|
      && r[i] == GuestCartItem(productId, items[i].quantity + quantity)
      && forall j :: 0 <= j < |items| && j != i ==> r[j] == items[j]
  {
  }

  /** Adding an absent product appends it at the end. */
  lemma AddAbsent(items: seq<GuestCartItem>, productId: int, quantity: int)
    requires !Holds(items, productId)
    ensures Added(items, productId, quantity) == items + [GuestCartItem(productId, quantity)]
  {
  }

  /** In terms of the quantities shown: the product gains `quantity`, every other is unchanged. */
  lemma AddQuantities(items: seq<GuestCartItem>, productId: int, quantity: int, other: int)
    requires other != productId
    ensures QuantityOf(Added(items, productId, quantity), productId) == QuantityOf(items, productId) + quantity
    ensures QuantityOf(Added(items, productId, quantity), other) == QuantityOf(items, other)
  {
    var r := Added(items, productId, quantity);
    var i := IndexOf(items, productId);
    IndexOfAfterReplace(items, i, r[i], productId);
    IndexOfAfterReplace(items, i, r[i], other);
    if i == |items| {
      IndexOfAfterAppend(items, r[i], productId);
      IndexOfAfterAppend(items, r[i], other);
    }
  }

  /** The first position is characterised by the three facts `find` relies on. */
  lemma IndexOfIs(items: seq<GuestCartItem>, productId: int, k: nat)
    requires k <= |items| && (k < |items| ==> items[k].productId == productId)
    requires forall j :: 0 <= j < k ==> items[j].productId != productId
    ensures IndexOf(items, productId) == k
  {
  }

  /** Replacing an entry by one for the same product moves no product's first position. */
  lemma IndexOfAfterReplace(items: seq<GuestCartItem>, i: nat, e: GuestCartItem, productId: int)
    requires i < |items| ==> e.productId == items[i].productId
    ensures i < |items| ==> IndexOf(items[i := e], productId) == IndexOf(items, productId)
  {
    if i < |items| {
      IndexOfIs(items[i := e], productId, IndexOf(items, productId));
    }
  }

  /** Appending an entry leaves every earlier first position where it was. */
  lemma IndexOfAfterAppend(items: seq<GuestCartItem>, e: GuestCartItem, productId: int)
    ensures Holds(items, productId) ==> IndexOf(items + [e], productId) == IndexOf(items, productId)
    ensures !Holds(items, productId) ==>
              IndexOf(items + [e], productId) == if e.productId == productId then |items| else |items| + 1
  {
    var k := IndexOf(items, productId);
    if Holds(items, productId) {
      IndexOfIs(items + [e], productId, k);
    } else if e.productId == productId {
      IndexOfIs(items + [e], productId, |items|);
    } else {
      IndexOfIs(items + [e], productId, |items| + 1);
    }
  }

  /** Adding keeps at most one entry per product. */
  lemma AddKeepsUnique(items: seq<GuestCartItem>, productId: int, quantity: int)
    requires Unique(items)
    ensures Unique(Added(items, productId, quantity))
  {
    var r := Added(items, productId, quantity);
    if !Holds(items, productId) {
      assert forall i :: 0 <= i < |items| ==> r[i] == items[i] && items[i].productId != productId;
      assert r[|items|].productId == productId;
    } else {
      assert forall j :: 0 <= j < |r| ==> r[j].productId == items[j].productId;
    }
  }

  // ------------------------------------------------------------ update

  /** Updating sets the first matching entry's quantity and nothing else. */
  lemma UpdatePresent(items: seq<GuestCartItem>, productId: int, quantity: int, other: int)
    requires Holds(items, productId) && other != productId
    ensures |Updated(items, productId, quantity)| == |items|
    ensures QuantityOf(Updated(items, productId, quantity), productId) == quantity
    ensures QuantityOf(Updated(items, productId, quantity), other) == QuantityOf(items, other)
    ensures forall j :: 0 <= j < |items| && j != IndexOf(items, productId) ==>
              Updated(items, productId, quantity)[j] == items[j]
  {
    var i := IndexOf(items, productId);
    var r := Updated(items, productId, quantity);
    IndexOfAfterReplace(items, i, r[i], productId);
    IndexOfAfterReplace(items, i, r[i], other);
  }

  /** Updating an absent product changes nothing. */
  lemma UpdateAbsent(items: seq<GuestCartItem>, productId: int, quantity: int)
    requires !Holds(items, productId)
    ensures Updated(items, productId, quantity) == items
  {
  }

  lemma UpdateKeepsUnique(items: seq<GuestCartItem>, productId: int, quantity: int)
    requires Unique(items)
    ensures Unique(Updated(items, productId, quantity))
  {
    var r := Updated(items, productId, quantity);
    assert forall j :: 0 <= j < |r| ==> r[j].productId == items[j].productId;
  }

  // ------------------------------------------------------------ remove

  /** The filter distributes over concatenation, so the kept entries stay in order. */
  lemma {:induction false} WithoutAppend(a: seq<GuestCartItem>, b: seq<GuestCartItem>, productId: int)
    ensures Without(a + b, productId) == Without(a, productId) + Without(b, productId)
  {
    if a == [] {
      assert a + b == b;
    } else {
      assert (a + b)[1..] == a[1..] + b;
      WithoutAppend(a[1..], b, productId);
    }
  }

  /** Without an entry for the product, removing it changes nothing. */
  lemma {:induction false} WithoutAbsent(items: seq<GuestCartItem>, productId: int)
    requires !Holds(items, productId)
    ensures Without(items, productId) == items
  {
    if items != [] {
      assert items[0].productId != productId;
      assert !Holds(items[1..], productId) by {
        forall j | 0 <= j < |items[1..]|
          ensures items[1..][j].productId != productId
        {
          assert items[1..][j] == items[j + 1];
        }
      }
      WithoutAbsent(items[1..], productId);
    }
  }

  /** Removing twice is removing once. */
  lemma RemoveIdempotent(items: seq<GuestCartItem>, productId: int)
    ensures Without(Without(items, productId), productId) == Without(items, productId)
  {
    WithoutAbsent(Without(items, productId), productId);
  }

  /** Every entry for another product survives the removal, and its quantity with it. */
  lemma {:induction false} RemoveKeepsOthers(items: seq<GuestCartItem>, productId: int, other: int)
    requires other != productId
    ensures QuantityOf(Without(items, productId), productId) == 0
    ensures QuantityOf(Without(items, productId), other) == QuantityOf(items, other)
  {
    var r := Without(items, productId);
    assert !Holds(r, productId);
    if items != [] {
      RemoveKeepsOthers(items[1..], productId, other);
      if items[0].productId != productId {
        assert r == [items[0]] + Without(items[1..], productId);
        if items[0].productId != other {
          assert r[1..] == Without(items[1..], productId);
        }
      }
    }
  }

  /** Round trip: for a product not in the list, remove after add gives the list back. */
  lemma RemoveAfterAdd(items: seq<GuestCartItem>, productId: int, quantity: int)
    requires !Holds(items, productId)
    ensures Without(Added(items, productId, quantity), productId) == items
  {
    WithoutAppend(items, [GuestCartItem(productId, quantity)], productId);
    WithoutAbsent(items, productId);
  }
}
