/** The sales service: the goods on offer, the details of one good, and the purchase,
    which takes money out of a wallet into the sales ledger and units out of stock. */
module Sales {
  import opened Seqs
  import opened Store

  // Browsing

  /** One entry of the goods list: a name and a price. */
  datatype Listing = Listing(name: string, price: int)

  /** The details of one good. */
  datatype GoodDetails = GoodDetails(
    name: string, category: string, price: int, description: string, stockCount: int, createdAt: int)

  predicate InStock(it: Item) { it.stockCount > 0 }

  function ListingOf(it: Item): Listing { Listing(it.name, it.pricePerItem) }

  function DetailsOf(it: Item): GoodDetails {
    GoodDetails(it.name, it.category, it.pricePerItem, it.description, it.stockCount, it.createdAt)
  }

  /** The goods list: one listing per good with stock left, in table order, and nothing else. */
  function DisplayGoods(items: seq<Item>): (r: seq<Listing>)
    ensures |r| == |Filter(items, InStock)| <= |items|
    ensures forall k :: 0 <= k < |r| ==> r[k] == ListingOf(Filter(items, InStock)[k])
    ensures forall g :: g in r <==> exists it :: it in items && InStock(it) && ListingOf(it) == g
  {
    Map(Filter(items, InStock), ListingOf)
  }

  /** The details of the first good with id `itemId`, or 404 when there is none. */
  function GetGoodsDetails(items: seq<Item>, itemId: int): (r: Reply<GoodDetails>)
    ensures r.Err? <==> forall k :: 0 <= k < |items| ==> items[k].id != itemId
    ensures r.Err? ==> r.resp == Response(404, "Item not found")
    ensures r.Ok? ==> exists k :: 0 <= k < |items| && items[k].id == itemId && r.value == DetailsOf(items[k])
  {
    match ItemById(items, itemId)
    case None => Err(Response(404, "Item not found"))
    case Some(k) => Ok(DetailsOf(items[k]))
  }

  // The purchase

  /** The JSON body of a purchase; each field may be absent or null. */
  datatype SaleRequest = SaleRequest(customerUsername: Option<string>, itemName: Option<string>, quantity: Option<int>)

  predicate HasAllFields(req: SaleRequest) {
    !MissingText(req.customerUsername) && !MissingText(req.itemName) && !MissingNumber(req.quantity)
  }

  /** Customer `i` is the first with username `u`, good `j` the first named `n`, the
      stock covers `q` units and the wallet covers their price. */
  ghost predicate Purchase(db: Db, u: string, n: string, q: int, i: int, j: int) {
    && 0 <= i < |db.customers| && db.customers[i].username == u
    && (forall k :: 0 <= k < i ==> db.customers[k].username != u)
    && 0 <= j < |db.items| && db.items[j].name == n
    && (forall k :: 0 <= k < j ==> db.items[k].name != n)
    && q <= db.items[j].stockCount
    && db.items[j].pricePerItem * q <= db.customers[i].walletBalance
  }

  /** A purchase the handler accepts. */
  ghost predicate SaleAllowed(db: Db, req: SaleRequest) {
    && HasAllFields(req)
    && exists i, j :: Purchase(db, req.customerUsername.value, req.itemName.value, req.quantity.value, i, j)
  }

  /** `after` is `before` with `q` units of good `j` sold to customer `i` at time `now`:
      the wallet pays the price, the stock gives the units, one ledger row with a fresh
      id records it, and nothing else changes. Neither wallet nor stock goes negative. */
  ghost predicate Bought(before: Db, after: Db, i: int, j: int, q: int, now: int)
    requires 0 <= i < |before.customers| && 0 <= j < |before.items|
  {
    var c, it := before.customers[i], before.items[j];
    var total := it.pricePerItem * q;
    && |after.customers| == |before.customers|
    && (forall k :: 0 <= k < |before.customers| && k != i ==> after.customers[k] == before.customers[k])
    && after.customers[i] == c.(walletBalance := c.walletBalance - total)
    && |after.items| == |before.items|
    && (forall k :: 0 <= k < |before.items| && k != j ==> after.items[k] == before.items[k])
    && after.items[j] == it.(stockCount := it.stockCount - q)
    && |after.sales| == |before.sales| + 1
    && after.sales[..|before.sales|] == before.sales
    && (forall k :: 0 <= k < |before.sales| ==> before.sales[k].id != after.sales[|before.sales|].id)
    && after.sales[|before.sales|] == Sale(after.sales[|before.sales|].id, c.id, it.id, q, total, now)
    && after.reviews == before.reviews && after.carts == before.carts && after.wishlist == before.wishlist
    && after.customers[i].walletBalance >= 0
    && after.items[j].stockCount >= 0
  }

  /** The purchase, check by check in the handler's order: the fields, the customer,
      the good, the stock, the wallet. */
  function CreateSaleStep(db: Db, req: SaleRequest, now: int): (r: Step)
    ensures r.resp.code in {201, 400, 404}
    ensures r.resp.code != 201 ==> r.db == db
    ensures !HasAllFields(req) ==> r.resp == Response(400, "Missing required fields")
    ensures HasAllFields(req) && CustomerByUsername(db.customers, req.customerUsername.value).None? ==>
              r.resp == Response(404, "Customer not found")
    ensures HasAllFields(req) && CustomerByUsername(db.customers, req.customerUsername.value).Some?
            && ItemByName(db.items, req.itemName.value).None? ==>
              r.resp == Response(404, "Item not found")
    ensures HasAllFields(req) && CustomerByUsername(db.customers, req.customerUsername.value).Some?
            && ItemByName(db.items, req.itemName.value).Some?
            && db.items[ItemByName(db.items, req.itemName.value).value].stockCount < req.quantity.value ==>
              r.resp == Response(400, "Insufficient stock")
    ensures HasAllFields(req) && CustomerByUsername(db.customers, req.customerUsername.value).Some?
            && ItemByName(db.items, req.itemName.value).Some? ==>
              var c := db.customers[CustomerByUsername(db.customers, req.customerUsername.value).value];
              var it := db.items[ItemByName(db.items, req.itemName.value).value];
              it.stockCount >= req.quantity.value && c.walletBalance < it.pricePerItem * req.quantity.value ==>
                r.resp == Response(400, "Insufficient wallet balance")
    ensures r.resp.code == 201 ==> r.resp == Response(201, "Sale completed successfully")
    ensures r.resp.code == 201 <==> SaleAllowed(db, req)
    ensures r.resp.code == 201 ==>
              && HasAllFields(req)
              && forall i, j :: Purchase(db, req.customerUsername.value, req.itemName.value, req.quantity.value, i, j)
                   ==> Bought(db, r.db, i, j, req.quantity.value, now)
    ensures WellFormed(db) ==> WellFormed(r.db)
  {
    if !HasAllFields(req) then Step(Response(400, "Missing required fields"), db)
    else
      var u, n, q := req.customerUsername.value, req.itemName.value, req.quantity.value;
      var ci := CustomerByUsername(db.customers, u);
      var ii := ItemByName(db.items, n);
      if ci.None? then Step(Response(404, "Customer not found"), db)
      else if ii.None? then Step(Response(404, "Item not found"), db)
      else
        var c, it := db.customers[ci.value], db.items[ii.value];
        if it.stockCount < q then Step(Response(400, "Insufficient stock"), db)
        else
          var total := it.pricePerItem * q;
          if c.walletBalance < total then Step(Response(400, "Insufficient wallet balance"), db)
          else
            var after := SaleApplied(db, ci.value, ii.value, q, now);
            PurchaseIsFirstMatch(db, u, n, q, ci.value, ii.value);
            SaleKeepsWellFormed(db, after, ci.value, ii.value);
            Step(Response(201, "Sale completed successfully"), after)
  }

  /** The store after customer `ci` buys `q` units of good `ii` at time `now`: the
      wallet pays the total, the stock gives the units, and the ledger gains one row
      under an id no earlier sale has. */
  function SaleApplied(db: Db, ci: nat, ii: nat, q: int, now: int): (r: Db)
    requires ci < |db.customers| && ii < |db.items|
    ensures |r.sales| == |db.sales| + 1 && r.sales[..|db.sales|] == db.sales
    ensures forall k :: 0 <= k < |db.sales| ==> db.sales[k].id != r.sales[|db.sales|].id
    ensures r.sales[|db.sales|].totalPrice == db.items[ii].pricePerItem * q
    ensures |r.customers| == |db.customers| && |r.items| == |db.items|
    ensures r.customers[ci].walletBalance == db.customers[ci].walletBalance - r.sales[|db.sales|].totalPrice
    ensures r.items[ii].stockCount == db.items[ii].stockCount - r.sales[|db.sales|].quantity
    ensures r.reviews == db.reviews && r.carts == db.carts && r.wishlist == db.wishlist
  {
    var c, it := db.customers[ci], db.items[ii];
    var total := it.pricePerItem * q;
    db.(customers := db.customers[ci := c.(walletBalance := c.walletBalance - total)],
        items := db.items[ii := it.(stockCount := it.stockCount - q)],
        sales := db.sales + [Sale(NewSaleId(db.sales), c.id, it.id, q, total, now)])
  }

  /** The handler's lookups find exactly the customer and the good of a `Purchase`. */
  lemma PurchaseIsFirstMatch(db: Db, u: string, n: string, q: int, ci: nat, ii: nat)
    requires CustomerByUsername(db.customers, u) == Some(ci)
    requires ItemByName(db.items, n) == Some(ii)
    requires q <= db.items[ii].stockCount
    requires db.items[ii].pricePerItem * q <= db.customers[ci].walletBalance
    ensures Purchase(db, u, n, q, ci, ii)
    ensures forall i, j :: Purchase(db, u, n, q, i, j) ==> i == ci && j == ii
  {
    forall i, j | Purchase(db, u, n, q, i, j)
      ensures i == ci && j == ii
    {
      FirstIndexIs(db.customers, (c: Customer) => c.username == u, i);
      FirstIndexIs(db.items, (it: Item) => it.name == n, j);
    }
  }

  /** Changing a wallet and a stock count and appending a ledger row with a fresh id
      keeps every key of the store distinct. */
  lemma SaleKeepsWellFormed(db: Db, after: Db, ci: nat, ii: nat)
    requires ci < |db.customers| && ii < |db.items|
    requires |after.customers| == |db.customers| && after.customers == db.customers[ci := after.customers[ci]]
    requires after.customers[ci].id == db.customers[ci].id
    requires after.customers[ci].username == db.customers[ci].username
    requires |after.items| == |db.items| && after.items == db.items[ii := after.items[ii]]
    requires after.items[ii].id == db.items[ii].id
    requires |after.sales| == |db.sales| + 1 && after.sales[..|db.sales|] == db.sales
    requires after.sales[|db.sales|].id == NewSaleId(db.sales)
    requires after.reviews == db.reviews && after.carts == db.carts && after.wishlist == db.wishlist
    ensures WellFormed(db) ==> WellFormed(after)
  {
    if WellFormed(db) {
      var n := |db.sales|;
      forall a, b | 0 <= a < b < |after.sales|
        ensures after.sales[a].id != after.sales[b].id
      {
        assert after.sales[a] == db.sales[a];
        if b < n {
          assert after.sales[b] == db.sales[b];
        }
      }
    }
  }

  /** The handler over the shared store: the same checks, then the three updates in place. */
  method CreateSale(shop: Shop, req: SaleRequest, now: int) returns (resp: Response)
    modifies shop
    ensures Step(resp, shop.Snapshot()) == CreateSaleStep(old(shop.Snapshot()), req, now)
  {
    ghost var db := shop.Snapshot();
    if MissingText(req.customerUsername) || MissingText(req.itemName) || MissingNumber(req.quantity) {
      return Response(400, "Missing required fields");
    }
    var quantity := req.quantity.value;
    var ci := CustomerByUsername(shop.customers, req.customerUsername.value);
    var ii := ItemByName(shop.items, req.itemName.value);
    if ci.None? {
      return Response(404, "Customer not found");
    }
    if ii.None? {
      return Response(404, "Item not found");
    }
    var customer, item := shop.customers[ci.value], shop.items[ii.value];
    if item.stockCount < quantity {
      return Response(400, "Insufficient stock");
    }
    var totalPrice := item.pricePerItem * quantity;
    if customer.walletBalance < totalPrice {
      return Response(400, "Insufficient wallet balance");
    }
    shop.items := shop.items[ii.value := item.(stockCount := item.stockCount - quantity)];
    shop.customers := shop.customers[ci.value := customer.(walletBalance := customer.walletBalance - totalPrice)];
    shop.sales := shop.sales + [Sale(NewSaleId(shop.sales), customer.id, item.id, quantity, totalPrice, now)];
    resp := Response(201, "Sale completed successfully");
    assert shop.Snapshot() == SaleApplied(db, ci.value, ii.value, quantity, now);
  }

  // What a purchase moves between tables

  function WalletOf(c: Customer): int { c.walletBalance }
  function PaidOf(s: Sale): int { s.totalPrice }

  /** The money held in all wallets. */
  function WalletTotal(cs: seq<Customer>): int { SumOf(cs, WalletOf) }

  /** The money recorded in the sales ledger. */
  function LedgerTotal(sales: seq<Sale>): int { SumOf(sales, PaidOf) }

  function StockFn(itemId: int): Item -> int {
    (it: Item) => if it.id == itemId then it.stockCount else 0
  }

  function SoldFn(itemId: int): Sale -> int {
    (s: Sale) => if s.itemId == itemId then s.quantity else 0
  }

  /** Units of good `itemId` in stock. */
  function StockOf(items: seq<Item>, itemId: int): int { SumOf(items, StockFn(itemId)) }

  /** Units of good `itemId` the ledger records as sold. */
  function SoldOf(sales: seq<Sale>, itemId: int): int { SumOf(sales, SoldFn(itemId)) }

  /** A purchase moves money from a wallet into the ledger: the two together stay the same. */
  lemma SaleConservesMoney(db: Db, req: SaleRequest, now: int)
    ensures var after := CreateSaleStep(db, req, now).db;
            WalletTotal(after.customers) + LedgerTotal(after.sales)
            == WalletTotal(db.customers) + LedgerTotal(db.sales)
  {
    var r := CreateSaleStep(db, req, now);
    if r.resp.code == 201 {
      var ci := CustomerByUsername(db.customers, req.customerUsername.value).value;
      var ii := ItemByName(db.items, req.itemName.value).value;
      assert r.db == SaleApplied(db, ci, ii, req.quantity.value, now);
      SaleAppliedConservesMoney(db, ci, ii, req.quantity.value, now);
    }
  }

  lemma SaleAppliedConservesMoney(db: Db, ci: nat, ii: nat, q: int, now: int)
    requires ci < |db.customers| && ii < |db.items|
    ensures var after := SaleApplied(db, ci, ii, q, now);
            WalletTotal(after.customers) + LedgerTotal(after.sales)
            == WalletTotal(db.customers) + LedgerTotal(db.sales)
  {
    var c, it := db.customers[ci], db.items[ii];
    var total := it.pricePerItem * q;
    SumUpdate(db.customers, ci, c.(walletBalance := c.walletBalance - total), WalletOf);
    SumAppend(db.sales, Sale(NewSaleId(db.sales), c.id, it.id, q, total, now), PaidOf);
  }

  /** A purchase moves units from stock into the ledger: for every good, stock plus
      units sold stays the same. */
  lemma SaleConservesStock(db: Db, req: SaleRequest, now: int, itemId: int)
    ensures var after := CreateSaleStep(db, req, now).db;
            StockOf(after.items, itemId) + SoldOf(after.sales, itemId)
            == StockOf(db.items, itemId) + SoldOf(db.sales, itemId)
  {
    var r := CreateSaleStep(db, req, now);
    if r.resp.code == 201 {
      var ci := CustomerByUsername(db.customers, req.customerUsername.value).value;
      var ii := ItemByName(db.items, req.itemName.value).value;
      assert r.db == SaleApplied(db, ci, ii, req.quantity.value, now);
      SaleAppliedConservesStock(db, ci, ii, req.quantity.value, now, itemId);
    }
  }

  lemma SaleAppliedConservesStock(db: Db, ci: nat, ii: nat, q: int, now: int, itemId: int)
    requires ci < |db.customers| && ii < |db.items|
    ensures var after := SaleApplied(db, ci, ii, q, now);
            StockOf(after.items, itemId) + SoldOf(after.sales, itemId)
            == StockOf(db.items, itemId) + SoldOf(db.sales, itemId)
  {
    var c, it := db.customers[ci], db.items[ii];
    SumUpdate(db.items, ii, it.(stockCount := it.stockCount - q), StockFn(itemId));
    SumAppend(db.sales, Sale(NewSaleId(db.sales), c.id, it.id, q, it.pricePerItem * q, now), SoldFn(itemId));
  }

  /** The handler rejects only a missing or zero quantity, so a negative one passes
      every check: the sale is recorded, stock grows and the wallet is credited. */
  lemma NegativeQuantityIsAccepted(db: Db, u: string, n: string, q: int, now: int)
    requires u != "" && n != "" && q < 0
    requires exists i :: 0 <= i < |db.customers| && db.customers[i].username == u
    requires forall i :: 0 <= i < |db.customers| ==> db.customers[i].walletBalance >= 0
    requires exists j :: 0 <= j < |db.items| && db.items[j].name == n
    requires forall j :: 0 <= j < |db.items| ==> db.items[j].pricePerItem >= 0 && db.items[j].stockCount >= 0
    ensures var r := CreateSaleStep(db, SaleRequest(Some(u), Some(n), Some(q)), now);
            var ci, ii := CustomerByUsername(db.customers, u).value, ItemByName(db.items, n).value;
            && r.resp.code == 201
            && r.db.items[ii].stockCount > db.items[ii].stockCount
            && r.db.customers[ci].walletBalance >= db.customers[ci].walletBalance
  {
    var ci := CustomerByUsername(db.customers, u);
    var ii := ItemByName(db.items, n);
    assert ci.Some? && ii.Some?;
    var it := db.items[ii.value];
    assert it.pricePerItem * q <= 0 by {
      assert it.pricePerItem >= 0;
    }
  }

  // The store of the sales tests: one customer with 500.00 and one laptop at 300.00, ten in stock

  function TestStore(): Db {
    Db([Customer(1, "John Doe", "johndoe", "hashedpassword", 30, "123 Main St", "Male", "Single", 50000, 0)],
       [Item(1, "Laptop", "Electronics", 30000, "High-performance laptop", 10, 0)],
       [], [], [], [])
  }

  lemma BrowseTestCases()
    ensures DisplayGoods(TestStore().items) == [Listing("Laptop", 30000)]
    ensures GetGoodsDetails(TestStore().items, 1).Ok?
    ensures GetGoodsDetails(TestStore().items, 1).value.category == "Electronics"
    ensures GetGoodsDetails(TestStore().items, 1).value.price == 30000
  {
    var items := TestStore().items;
    assert Filter(items, InStock) == items by {
      assert items[..0] == [];
    }
  }

  /** Buying one laptop leaves 200.00 in the wallet and nine in stock. */
  lemma SaleTestCompleted(now: int)
    ensures var r := CreateSaleStep(TestStore(), SaleRequest(Some("johndoe"), Some("Laptop"), Some(1)), now);
            r.resp == Response(201, "Sale completed successfully")
            && r.db.customers[0].walletBalance == 20000 && r.db.items[0].stockCount == 9
  {
  }

  /** Two laptops cost more than the wallet holds; twenty are more than the stock. */
  lemma SaleTestRejected(now: int)
    ensures CreateSaleStep(TestStore(), SaleRequest(Some("johndoe"), Some("Laptop"), Some(2)), now).resp
            == Response(400, "Insufficient wallet balance")
    ensures CreateSaleStep(TestStore(), SaleRequest(Some("johndoe"), Some("Laptop"), Some(20)), now).resp
            == Response(400, "Insufficient stock")
  {
  }
}
