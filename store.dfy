/** The shop's relational store: one record type per table, the whole database as a
    value (`Db`), the lookups every handler makes, the integrity the schema promises,
    and the mutable store object the handlers change in place.

    Money (WalletBalance, PricePerItem, TotalPrice, wallet amounts) is kept in integer
    cents; timestamps are integer seconds. */
module Store {
  import opened Seqs

  datatype Customer = Customer(
    id: int,
    fullName: string,
    username: string,
    passwordHash: string,
    age: int,
    address: string,
    gender: string,
    maritalStatus: string,
    walletBalance: int,
    createdAt: int)

  datatype Item = Item(
    id: int,
    name: string,
    category: string,
    pricePerItem: int,
    description: string,
    stockCount: int,
    createdAt: int)

  /** A ledger entry: written once by a sale and never changed afterwards. */
  datatype Sale = Sale(id: int, customerId: int, itemId: int, quantity: int, totalPrice: int, soldAt: int)

  datatype Review = Review(
    id: int,
    customerId: int,
    itemId: int,
    rating: int,
    comment: string,
    isFlagged: int,
    createdAt: int)

  datatype CartEntry = CartEntry(id: int, customerId: int, itemId: int, quantity: int, addedAt: int)

  datatype WishEntry = WishEntry(customerId: int, itemId: int)

  /** The tables, each in row order (the order `query(...).all()` returns). */
  datatype Db = Db(
    customers: seq<Customer>,
    items: seq<Item>,
    sales: seq<Sale>,
    reviews: seq<Review>,
    carts: seq<CartEntry>,
    wishlist: seq<WishEntry>)

  /** An HTTP status code with the "message" or "error" text of the JSON body. */
  datatype Response = Response(code: int, text: string)

  /** What a state-changing handler does: its response and the store after it. */
  datatype Step = Step(resp: Response, db: Db)

  /** What a read-only handler does: a value, or an error response. */
  datatype Reply<T> = Ok(value: T) | Err(resp: Response)

  /** `not v` for a text field of a JSON body: absent, null or empty. */
  predicate MissingText(v: Option<string>) { v.None? || v.value == "" }

  /** `not v` for a number field of a JSON body: absent, null or zero. */
  predicate MissingNumber(v: Option<int>) { v.None? || v.value == 0 }

  /** The answer of the application's 500 handler to an exception no route catches. */
  const InternalError := Response(500, "Internal server error")

  /** The error a view raises when a row points at an item that is gone and the
      item's name is read. */
  const MissingItemError := Response(500, "'NoneType' object has no attribute 'Name'")

  // Lookups: `filter_by(...).first()` and `query(...).get(...)` on each table

  function CustomerById(cs: seq<Customer>, id: int): Option<nat> {
    FirstIndex(cs, (c: Customer) => c.id == id)
  }

  function CustomerByUsername(cs: seq<Customer>, username: string): Option<nat> {
    FirstIndex(cs, (c: Customer) => c.username == username)
  }

  function ItemById(items: seq<Item>, id: int): Option<nat> {
    FirstIndex(items, (it: Item) => it.id == id)
  }

  function ItemByName(items: seq<Item>, name: string): Option<nat> {
    FirstIndex(items, (it: Item) => it.name == name)
  }

  function ReviewById(reviews: seq<Review>, id: int): Option<nat> {
    FirstIndex(reviews, (rv: Review) => rv.id == id)
  }

  function CartEntryFor(carts: seq<CartEntry>, customerId: int, itemId: int): Option<nat> {
    FirstIndex(carts, (e: CartEntry) => e.customerId == customerId && e.itemId == itemId)
  }

  function WishEntryFor(wishlist: seq<WishEntry>, customerId: int, itemId: int): Option<nat> {
    FirstIndex(wishlist, (w: WishEntry) => w.customerId == customerId && w.itemId == itemId)
  }

  // Fresh primary keys

  function NewCustomerId(cs: seq<Customer>): int { NewId(cs, (c: Customer) => c.id) }
  function NewItemId(items: seq<Item>): int { NewId(items, (it: Item) => it.id) }
  function NewSaleId(sales: seq<Sale>): int { NewId(sales, (s: Sale) => s.id) }
  function NewReviewId(reviews: seq<Review>): int { NewId(reviews, (rv: Review) => rv.id) }
  function NewCartId(carts: seq<CartEntry>): int { NewId(carts, (e: CartEntry) => e.id) }

  // Integrity of the store: primary keys and UNIQUE columns, one cart row per
  // (customer, item) pair (the upsert keeps it), one wishlist row per pair
  // (the duplicate check keeps it)

  function CustomerIdOf(c: Customer): int { c.id }
  function UsernameOf(c: Customer): string { c.username }
  function ItemIdOf(it: Item): int { it.id }
  function SaleIdOf(s: Sale): int { s.id }
  function ReviewIdOf(rv: Review): int { rv.id }
  function CartIdOf(e: CartEntry): int { e.id }
  function CartPairOf(e: CartEntry): (int, int) { (e.customerId, e.itemId) }
  function WishPairOf(w: WishEntry): (int, int) { (w.customerId, w.itemId) }

  predicate UniqueCustomers(cs: seq<Customer>) {
    Distinct(cs, CustomerIdOf) && Distinct(cs, UsernameOf)
  }

  predicate UniqueItems(items: seq<Item>) {
    Distinct(items, ItemIdOf)
  }

  predicate UniqueSales(sales: seq<Sale>) {
    Distinct(sales, SaleIdOf)
  }

  predicate UniqueReviews(reviews: seq<Review>) {
    Distinct(reviews, ReviewIdOf)
  }

  predicate UniqueCarts(carts: seq<CartEntry>) {
    Distinct(carts, CartIdOf) && Distinct(carts, CartPairOf)
  }

  predicate UniqueWishes(wishlist: seq<WishEntry>) {
    Distinct(wishlist, WishPairOf)
  }

  predicate WellFormed(db: Db) {
    && UniqueCustomers(db.customers)
    && UniqueItems(db.items)
    && UniqueSales(db.sales)
    && UniqueReviews(db.reviews)
    && UniqueCarts(db.carts)
    && UniqueWishes(db.wishlist)
  }

  /** The store the handlers share: one field per table, changed in place. */
  class Shop {
    var customers: seq<Customer>
    var items: seq<Item>
    var sales: seq<Sale>
    var reviews: seq<Review>
    var carts: seq<CartEntry>
    var wishlist: seq<WishEntry>

    /** The current contents of every table. */
    function Snapshot(): Db
      reads this
    {
      Db(customers, items, sales, reviews, carts, wishlist)
    }

    constructor (db: Db)
      ensures Snapshot() == db
    {
      customers, items, sales := db.customers, db.items, db.sales;
      reviews, carts, wishlist := db.reviews, db.carts, db.wishlist;
    }
  }
}
