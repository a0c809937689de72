/** The cart service: the upsert that adds to a cart, the cart view, removal, and the
    scheduled sweep that deletes carts left for more than a day. */
module Cart {
  import opened Seqs
  import opened Store

  /** The units of item `itemId` in customer `customerId`'s cart, over all its rows. */
  function QuantityInCart(carts: seq<CartEntry>, customerId: int, itemId: int): int {
    SumOf(carts, PairQuantity(customerId, itemId))
  }

  function PairQuantity(customerId: int, itemId: int): CartEntry -> int {
    (e: CartEntry) => if e.customerId == customerId && e.itemId == itemId then e.quantity else 0
  }

  /** Adding to a cart: a missing or zero item id or quantity is a 400, an unknown
      customer or item a 404; otherwise the quantity is added to the pair's row, or a
      new row is created for a pair that has none. */
  function AddToCartStep(db: Db, customerId: int, itemId: Option<int>, quantity: Option<int>, now: int): (r: Step)
    ensures r.resp.code in {200, 400, 404}
    ensures r.resp.code != 200 ==> r.db == db
    ensures MissingNumber(itemId) || MissingNumber(quantity) ==> r.resp == Response(400, "Missing item_id or quantity")
    ensures !MissingNumber(itemId) && !MissingNumber(quantity)
            && (CustomerById(db.customers, customerId).None? || ItemById(db.items, itemId.value).None?) ==>
              r.resp == Response(404, "Customer or Item not found")
    ensures r.resp.code == 200 <==>
              && !MissingNumber(itemId) && !MissingNumber(quantity)
              && (exists k :: 0 <= k < |db.customers| && db.customers[k].id == customerId)
              && (exists k :: 0 <= k < |db.items| && db.items[k].id == itemId.value)
    ensures r.resp.code == 200 ==>
              && r.resp == Response(200, "Item added to cart")
              && r.db == db.(carts := r.db.carts)
              && match CartEntryFor(db.carts, customerId, itemId.value)
                 case Some(k) =>
                   r.db.carts == db.carts[k := db.carts[k].(quantity := db.carts[k].quantity + quantity.value)]
                 case None =>
                   r.db.carts == db.carts + [CartEntry(NewCartId(db.carts), customerId, itemId.value, quantity.value, now)]
    ensures WellFormed(db) ==> WellFormed(r.db)
  {
    if MissingNumber(itemId) || MissingNumber(quantity) then Step(Response(400, "Missing item_id or quantity"), db)
    else if CustomerById(db.customers, customerId).None? || ItemById(db.items, itemId.value).None? then
      Step(Response(404, "Customer or Item not found"), db)
    else
      var iid, q := itemId.value, quantity.value;
      match CartEntryFor(db.carts, customerId, iid)
      case Some(k) =>
        var e := db.carts[k];
        var grown := e.(quantity := e.quantity + q);
        DistinctReplace(db.carts, k, grown, CartIdOf);
        DistinctReplace(db.carts, k, grown, CartPairOf);
        Step(Response(200, "Item added to cart"), db.(carts := db.carts[k := grown]))
      case None =>
        var e := CartEntry(NewCartId(db.carts), customerId, iid, q, now);
        DistinctAppend(db.carts, e, CartIdOf);
        DistinctAppend(db.carts, e, CartPairOf);
        Step(Response(200, "Item added to cart"), db.(carts := db.carts + [e]))
  }

  method AddToCart(shop: Shop, customerId: int, itemId: Option<int>, quantity: Option<int>, now: int)
    returns (resp: Response)
    modifies shop
    ensures Step(resp, shop.Snapshot()) == AddToCartStep(old(shop.Snapshot()), customerId, itemId, quantity, now)
  {
    if MissingNumber(itemId) || MissingNumber(quantity) {
      return Response(400, "Missing item_id or quantity");
    }
    var customer := CustomerById(shop.customers, customerId);
    var item := ItemById(shop.items, itemId.value);
    if customer.None? || item.None? {
      return Response(404, "Customer or Item not found");
    }
    var cartItem := CartEntryFor(shop.carts, customerId, itemId.value);
    if cartItem.Some? {
      var e := shop.carts[cartItem.value];
      shop.carts := shop.carts[cartItem.value := e.(quantity := e.quantity + quantity.value)];
    } else {
      shop.carts := shop.carts + [CartEntry(NewCartId(shop.carts), customerId, itemId.value, quantity.value, now)];
    }
    resp := Response(200, "Item added to cart");
  }

  /** An accepted add raises the pair's units by the quantity and leaves every other
      pair's units as they were. */
  lemma AddToCartQuantities(db: Db, customerId: int, itemId: int, quantity: int, now: int, c: int, i: int)
    requires AddToCartStep(db, customerId, Some(itemId), Some(quantity), now).resp.code == 200
    ensures var after := AddToCartStep(db, customerId, Some(itemId), Some(quantity), now).db;
            QuantityInCart(after.carts, c, i)
            == QuantityInCart(db.carts, c, i) + (if (c, i) == (customerId, itemId) then quantity else 0)
  {
    var f := PairQuantity(c, i);
    match CartEntryFor(db.carts, customerId, itemId)
    case Some(k) =>
      var e := db.carts[k];
      SumUpdate(db.carts, k, e.(quantity := e.quantity + quantity), f);
    case None =>
      SumAppend(db.carts, CartEntry(NewCartId(db.carts), customerId, itemId, quantity, now), f);
  }

  /** The second add of the same pair finds the row the first made: the table does not grow. */
  lemma AddToCartTwice(db: Db, customerId: int, itemId: int, q1: int, q2: int, now1: int, now2: int)
    requires AddToCartStep(db, customerId, Some(itemId), Some(q1), now1).resp.code == 200
    requires q2 != 0
    ensures var once := AddToCartStep(db, customerId, Some(itemId), Some(q1), now1).db;
            var twice := AddToCartStep(once, customerId, Some(itemId), Some(q2), now2);
            twice.resp.code == 200 && |twice.db.carts| == |once.carts|
  {
    var once := AddToCartStep(db, customerId, Some(itemId), Some(q1), now1).db;
    match CartEntryFor(db.carts, customerId, itemId)
    case Some(k) =>
      assert once.carts[k].customerId == customerId && once.carts[k].itemId == itemId;
    case None =>
      assert once.carts[|db.carts|].customerId == customerId && once.carts[|db.carts|].itemId == itemId;
  }

  /** Removing from a cart: 404 when the pair has no row; otherwise that row goes and
      the rest stay. */
  function RemoveFromCartStep(db: Db, customerId: int, itemId: int): (r: Step)
    ensures r.resp.code in {200, 404}
    ensures r.resp.code != 200 ==> r.db == db && r.resp == Response(404, "Cart item not found")
    ensures r.resp.code == 200 ==> r.resp.text == "Item removed from cart"
    ensures r.resp.code == 200 <==>
              exists k :: 0 <= k < |db.carts| && db.carts[k].customerId == customerId && db.carts[k].itemId == itemId
    ensures r.resp.code == 200 ==>
              var k := CartEntryFor(db.carts, customerId, itemId).value;
              && multiset(r.db.carts) == multiset(db.carts) - multiset{db.carts[k]}
              && r.db == db.(carts := r.db.carts)
              && (WellFormed(db) ==> QuantityInCart(r.db.carts, customerId, itemId) == 0)
    ensures WellFormed(db) ==> WellFormed(r.db)
  {
    match CartEntryFor(db.carts, customerId, itemId)
    case None => Step(Response(404, "Cart item not found"), db)
    case Some(k) =>
      var rest := RemoveAt(db.carts, k);
      DistinctRemoveAt(db.carts, k, CartIdOf);
      DistinctRemoveAt(db.carts, k, CartPairOf);
      if WellFormed(db) then
        RemovedPairIsGone(db.carts, k, customerId, itemId);
        Step(Response(200, "Item removed from cart"), db.(carts := rest))
      else
        Step(Response(200, "Item removed from cart"), db.(carts := rest))
  }

  /** With one row per pair, removing the pair's row leaves none of its units. */
  lemma {:induction false} RemovedPairIsGone(carts: seq<CartEntry>, k: nat, customerId: int, itemId: int)
    requires k < |carts| && Distinct(carts, CartPairOf)
    requires carts[k].customerId == customerId && carts[k].itemId == itemId
    ensures QuantityInCart(RemoveAt(carts, k), customerId, itemId) == 0
  {
    var rest := RemoveAt(carts, k);
    forall j | 0 <= j < |rest|
      ensures PairQuantity(customerId, itemId)(rest[j]) == 0
    {
      if j < k {
        assert CartPairOf(carts[j]) != CartPairOf(carts[k]);
      } else {
        assert rest[j] == carts[j + 1];
        assert CartPairOf(carts[k]) != CartPairOf(carts[j + 1]);
      }
    }
    SumOfZeros(rest, PairQuantity(customerId, itemId));
  }

  lemma {:induction false} SumOfZeros<T>(s: seq<T>, f: T -> int)
    requires forall j :: 0 <= j < |s| ==> f(s[j]) == 0
    ensures SumOf(s, f) == 0
  {
    if |s| > 0 {
      SumOfZeros(s[..|s| - 1], f);
    }
  }

  method RemoveFromCart(shop: Shop, customerId: int, itemId: int) returns (resp: Response)
    modifies shop
    ensures Step(resp, shop.Snapshot()) == RemoveFromCartStep(old(shop.Snapshot()), customerId, itemId)
  {
    var cartItem := CartEntryFor(shop.carts, customerId, itemId);
    if cartItem.None? {
      return Response(404, "Cart item not found");
    }
    shop.carts := RemoveAt(shop.carts, cartItem.value);
    resp := Response(200, "Item removed from cart");
  }

  // The cart view

  /** One row of the cart view: the item id and name, the quantity and when it was added. */
  datatype CartView = CartView(itemId: int, name: string, quantity: int, addedAt: int)

  function CartOf(carts: seq<CartEntry>, customerId: int): (r: seq<CartEntry>)
    ensures forall e :: e in r <==> e in carts && e.customerId == customerId
  {
    Filter(carts, (e: CartEntry) => e.customerId == customerId)
  }

  /** The views of `entries`, or `None` if one names an item that is not in the table. */
  function ViewRows(items: seq<Item>, entries: seq<CartEntry>): (r: Option<seq<CartView>>)
    ensures r.None? <==> exists k :: 0 <= k < |entries| && ItemById(items, entries[k].itemId).None?
    ensures r.Some? ==> |r.value| == |entries|
    ensures r.Some? ==> forall k :: 0 <= k < |entries| ==>
              && r.value[k].itemId == entries[k].itemId
              && r.value[k].quantity == entries[k].quantity
              && r.value[k].addedAt == entries[k].addedAt
              && exists j :: 0 <= j < |items| && items[j].id == entries[k].itemId && r.value[k].name == items[j].name
  {
    if |entries| == 0 then Some([])
    else
      var init, last := entries[..|entries| - 1], entries[|entries| - 1];
      assert forall k :: 0 <= k < |init| ==> init[k] == entries[k];
      match ViewRows(items, init)
      case None => None
      case Some(views) =>
        match ItemById(items, last.itemId)
        case None => None
        case Some(j) => Some(views + [CartView(last.itemId, items[j].name, last.quantity, last.addedAt)])
  }

  /** `v` shows the item, quantity and time of entry `e`. */
  predicate ShowsEntry(v: CartView, e: CartEntry) {
    v.itemId == e.itemId && v.quantity == e.quantity && v.addedAt == e.addedAt
  }

  /** The customer's cart rows in table order, each with its item's name. A row whose
      item is gone makes `item.inventory_item.Name` raise. */
  function ViewCart(db: Db, customerId: int): (r: Reply<seq<CartView>>)
    ensures r.Err? <==> exists e :: e in db.carts && e.customerId == customerId && ItemById(db.items, e.itemId).None?
    ensures r.Err? ==> r.resp == MissingItemError
    ensures r.Ok? ==> |r.value| == |CartOf(db.carts, customerId)|
    ensures r.Ok? ==> forall k :: 0 <= k < |r.value| ==> ShowsEntry(r.value[k], CartOf(db.carts, customerId)[k])
    ensures r.Ok? ==> forall v :: v in r.value ==> CartRowListed(db, customerId, v)
    ensures r.Ok? ==> forall e :: e in db.carts && e.customerId == customerId ==> CartEntryShown(r.value, e)
  {
    var rows := CartOf(db.carts, customerId);
    CartRowsListed(db, customerId, rows);
    match ViewRows(db.items, rows)
    case None => Err(MissingItemError)
    case Some(views) => Ok(views)
  }

  /** `v` shows a row of the customer's cart and the name of that row's item. */
  ghost predicate CartRowListed(db: Db, customerId: int, v: CartView) {
    && CartEntryWith(db.carts, customerId, v)
    && exists j :: 0 <= j < |db.items| && db.items[j].id == v.itemId && db.items[j].name == v.name
  }

  /** Some row of `views` shows entry `e`. */
  ghost predicate CartEntryShown(views: seq<CartView>, e: CartEntry) {
    exists v :: v in views && ShowsEntry(v, e)
  }

  ghost predicate CartEntryWith(carts: seq<CartEntry>, customerId: int, v: CartView) {
    exists e :: e in carts && e.customerId == customerId && e.itemId == v.itemId && e.quantity == v.quantity && e.addedAt == v.addedAt
  }

  lemma CartRowsListed(db: Db, customerId: int, rows: seq<CartEntry>)
    requires rows == CartOf(db.carts, customerId)
    ensures ViewRows(db.items, rows).None? <==>
              exists e :: e in db.carts && e.customerId == customerId && ItemById(db.items, e.itemId).None?
    ensures ViewRows(db.items, rows).Some? ==> forall v :: v in ViewRows(db.items, rows).value ==> CartRowListed(db, customerId, v)
    ensures ViewRows(db.items, rows).Some? ==>
              forall e :: e in db.carts && e.customerId == customerId ==> CartEntryShown(ViewRows(db.items, rows).value, e)
  {
    if ViewRows(db.items, rows).None? {
      var k :| 0 <= k < |rows| && ItemById(db.items, rows[k].itemId).None?;
      assert rows[k] in rows;
    } else {
      var views := ViewRows(db.items, rows).value;
      forall v | v in views
        ensures CartRowListed(db, customerId, v)
      {
        var k :| 0 <= k < |views| && views[k] == v;
        assert rows[k] in rows;
      }
      forall e | e in db.carts && e.customerId == customerId
        ensures ItemById(db.items, e.itemId).Some?
        ensures CartEntryShown(views, e)
      {
        assert e in rows;
        var k :| 0 <= k < |rows| && rows[k] == e;
        assert views[k] in views && ShowsEntry(views[k], e);
      }
    }
  }

  // The abandoned-cart sweep

  /** A cart row is abandoned once it is more than this many seconds old (24 hours). */
  const AbandonAfter := 24 * 60 * 60

  function IsAbandoned(now: int): CartEntry -> bool {
    (e: CartEntry) => e.addedAt < now - AbandonAfter
  }

  function IsKept(now: int): CartEntry -> bool {
    (e: CartEntry) => !(e.addedAt < now - AbandonAfter)
  }

  /** The rows the sweep's query returns, in table order. */
  function Abandoned(carts: seq<CartEntry>, now: int): seq<CartEntry> {
    Filter(carts, IsAbandoned(now))
  }

  /** The rows left once the abandoned ones are deleted. */
  function Kept(carts: seq<CartEntry>, now: int): seq<CartEntry> {
    Filter(carts, IsKept(now))
  }

  /** The sweep splits the table: every row is either abandoned or kept, never both. */
  lemma SweepPartitions(carts: seq<CartEntry>, now: int)
    ensures multiset(Abandoned(carts, now)) + multiset(Kept(carts, now)) == multiset(carts)
    ensures forall e :: e in Kept(carts, now) <==> e in carts && e.addedAt >= now - AbandonAfter
    ensures forall e :: e in Abandoned(carts, now) <==> e in carts && e.addedAt < now - AbandonAfter
  {
    var a, k := Abandoned(carts, now), Kept(carts, now);
    assert forall e :: (multiset(a) + multiset(k))[e] == multiset(carts)[e] by {
      forall e
        ensures (multiset(a) + multiset(k))[e] == multiset(carts)[e]
      {
        assert multiset(a)[e] == if IsAbandoned(now)(e) then multiset(carts)[e] else 0;
        assert multiset(k)[e] == if IsKept(now)(e) then multiset(carts)[e] else 0;
      }
    }
  }

  function CustomerMissing(cs: seq<Customer>): CartEntry -> bool {
    (e: CartEntry) => CustomerById(cs, e.customerId).None?
  }

  /** Every row of `entries` names a customer that is in the table. */
  predicate AllHaveCustomers(cs: seq<Customer>, entries: seq<CartEntry>) {
    forall k :: 0 <= k < |entries| ==> CustomerById(cs, entries[k].customerId).Some?
  }

  /** The usernames the sweep notifies for `entries`, whose customers all exist. */
  function Notices(cs: seq<Customer>, entries: seq<CartEntry>): (r: seq<string>)
    requires AllHaveCustomers(cs, entries)
    ensures |r| == |entries|
    ensures forall k :: 0 <= k < |entries| ==>
              exists j :: 0 <= j < |cs| && cs[j].id == entries[k].customerId && r[k] == cs[j].username
  {
    if |entries| == 0 then []
    else
      var init := entries[..|entries| - 1];
      assert forall k :: 0 <= k < |init| ==> init[k] == entries[k];
      Notices(cs, init) + [cs[CustomerById(cs, entries[|entries| - 1].customerId).value].username]
  }

  /** What the sweep does: the usernames it notifies, whether it commits, and the store after. */
  datatype Sweep = Sweep(notified: seq<string>, committed: bool, db: Db)

  /** The sweep: each abandoned row in table order has its customer's username
      notified; a row whose customer is gone raises, which rolls back every deletion
      (the notices printed before it stay printed). Otherwise exactly the abandoned
      rows are deleted. */
  function SweepStep(db: Db, now: int): (r: Sweep)
    ensures r.committed <==> AllHaveCustomers(db.customers, Abandoned(db.carts, now))
    ensures !r.committed ==> r.db == db && |r.notified| < |Abandoned(db.carts, now)|
    ensures r.committed ==>
              && r.db == db.(carts := Kept(db.carts, now))
              && r.notified == Notices(db.customers, Abandoned(db.carts, now))
    ensures WellFormed(db) ==> WellFormed(r.db)
  {
    var abandoned := Abandoned(db.carts, now);
    DistinctFilter(db.carts, IsKept(now), CartIdOf);
    DistinctFilter(db.carts, IsKept(now), CartPairOf);
    match FirstIndex(abandoned, CustomerMissing(db.customers))
    case Some(i) =>
      assert forall k :: 0 <= k < i ==> abandoned[..i][k] == abandoned[k];
      Sweep(Notices(db.customers, abandoned[..i]), false, db)
    case None => Sweep(Notices(db.customers, abandoned), true, db.(carts := Kept(db.carts, now)))
  }

  /** After a committed sweep no row older than a day is left, and every younger row is. */
  lemma SweepKeepsOnlyRecent(db: Db, now: int)
    requires SweepStep(db, now).committed
    ensures forall e :: e in SweepStep(db, now).db.carts <==> e in db.carts && e.addedAt >= now - AbandonAfter
    ensures multiset(SweepStep(db, now).db.carts) + multiset(Abandoned(db.carts, now)) == multiset(db.carts)
  {
    SweepPartitions(db.carts, now);
  }

  /** One more notice: the notices of a prefix grow by the next row's username. */
  lemma NoticesSnoc(cs: seq<Customer>, entries: seq<CartEntry>, i: nat)
    requires i < |entries|
    requires AllHaveCustomers(cs, entries[..i])
    requires CustomerById(cs, entries[i].customerId).Some?
    ensures AllHaveCustomers(cs, entries[..i + 1])
    ensures Notices(cs, entries[..i + 1])
            == Notices(cs, entries[..i]) + [cs[CustomerById(cs, entries[i].customerId).value].username]
  {
    assert entries[..i + 1][..i] == entries[..i];
    assert forall k :: 0 <= k < i ==> entries[..i + 1][k] == entries[..i][k];
  }

  method IdentifyAbandonedCarts(shop: Shop, now: int) returns (notified: seq<string>, committed: bool)
    modifies shop
    ensures Sweep(notified, committed, shop.Snapshot()) == SweepStep(old(shop.Snapshot()), now)
  {
    ghost var db := shop.Snapshot();
    var customers := shop.customers;
    var abandoned := Abandoned(shop.carts, now);
    notified := [];
    var i := 0;
    while i < |abandoned|
      invariant 0 <= i <= |abandoned|
      invariant shop.Snapshot() == db
      invariant AllHaveCustomers(customers, abandoned[..i])
      invariant notified == Notices(customers, abandoned[..i])
    {
      var customer := CustomerById(customers, abandoned[i].customerId);
      if customer.None? {
        SweepAborts(db, now, i);
        return notified, false;
      }
      NoticesSnoc(customers, abandoned, i);
      notified := notified + [customers[customer.value].username];
      i := i + 1;
    }
    assert abandoned[..i] == abandoned;
    SweepCommits(db, now);
    shop.carts := Kept(shop.carts, now);
    committed := true;
    assert shop.Snapshot() == db.(carts := Kept(db.carts, now));
  }

  /** With every abandoned row's customer present, the sweep notifies them all and commits. */
  lemma SweepCommits(db: Db, now: int)
    requires AllHaveCustomers(db.customers, Abandoned(db.carts, now))
    ensures SweepStep(db, now)
            == Sweep(Notices(db.customers, Abandoned(db.carts, now)), true, db.(carts := Kept(db.carts, now)))
  {
  }

  /** The sweep rolls back at the first row without a customer, having notified the rows before it. */
  lemma SweepAborts(db: Db, now: int, i: nat)
    requires i < |Abandoned(db.carts, now)|
    requires AllHaveCustomers(db.customers, Abandoned(db.carts, now)[..i])
    requires CustomerById(db.customers, Abandoned(db.carts, now)[i].customerId).None?
    ensures SweepStep(db, now) == Sweep(Notices(db.customers, Abandoned(db.carts, now)[..i]), false, db)
  {
    var abandoned := Abandoned(db.carts, now);
    assert forall k :: 0 <= k < i ==> abandoned[..i][k] == abandoned[k];
    FirstIndexIs(abandoned, CustomerMissing(db.customers), i);
  }
}
