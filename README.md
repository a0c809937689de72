# Shop backend model

A Dafny model of a Flask/SQLAlchemy shop backend. The backend has these services:

- customers: registration, login, profile update, deletion, wallet, wishlist;
- inventory: goods, with and without a token check;
- sales: browsing and buying;
- carts: including a sweep of abandoned carts;
- reviews;
- recommendations;
- the input validators.

The database is modelled as one value, `Store.Db`, with one sequence per table, rows in table order. `Store.Shop` is the mutable store object. It has one `seq` field per table, which the handler methods reassign.

Each state-changing handler comes in two parts:

- a pure step function `XStep(db, ...)` that returns the response and the new store. Its contract gives:
  - the status codes it can answer and the exact error texts;
  - that every error leaves the store unchanged;
  - when exactly the handler succeeds, stated in both directions;
  - the exact change the handler makes;
  - that the table invariants (`Store.WellFormed`: unique ids, unique usernames, one cart row and one wishlist row per customer/item pair) are kept.
- a method `X(shop, ...)` that changes `shop` in place, including the source's loops (`for field in required_fields`, `for key, value in data.items(): setattr(...)`, the abandoned-cart loop, the recommendation counter). It is proved to end in the state and response its step function gives.

Lemmas relate several handlers (register then login, charge then deduct, add then remove, deduct twice, and so on). Other lemmas check the behaviour the repository's tests expect.

Conventions:

- Money (wallet balances, prices, totals, amounts) is in integer cents.
- Timestamps are integer seconds, and the current time `now` is a parameter.
- A new row's id follows SQLite's rowid rule: one more than the largest id, or 1 for an empty table.
- `query(...).first()` and `query(...).get(id)` return the first matching row in table order.
- A JSON body's absent key is `None`. Python's `not x` is `Store.MissingText` for text (absent or empty) and `Store.MissingNumber` for numbers (absent or zero).

Two services exist in two copies:

- The older `app/services/sales.py` has the same code as `app/services/sales/sales.py`; both are modelled by `Sales`.
- The older `app/services/customers.py` has the same lookups, update, deletion and wallet code as `app/services/customers/customers.py`; these are modelled once, in `Customers`. Its registration has no username or password rule and is `LegacyCustomers.RegisterLegacyStep`.
- `app/services/inventory.py` is `Inventory`. `app/services/inventory/inventory.py` is the same handlers behind a token check, `AuthInventory`.

Where the documentation and the code disagree, the model follows the code. The exceptions are two places where the schema does not define what the handlers use: the `Wishlist` class and the `IsFlagged` column of reviews. There the model gives the handlers the schema they are written for; "## Left out" says what the code as written does instead.

- The customer registration test registers the password `hashedpassword123`. It contains no special character, so the current registration answers 400 "Invalid password" where the test expects 201 (`Customers.TestFormPasswordRejected`). The older registration accepts it (`LegacyCustomers.LegacyAcceptsTestForm`).
- The recommendation handler is documented as recommending items bought together with the customer's purchases. As written, it counts only items the customer bought and then removes exactly those items, so it always answers an empty list (`Recommendations.RecommendProducts`).
- A sale or a cart addition with a negative quantity is accepted. It raises the stock and the wallet. This holds for the schema of `app/database/models.py`, which the model assumes; see "## Left out".
- A customer that a cart row, a sale or a review still names cannot be deleted. None of those relationships cascades, and their `CustomerID` columns are not nullable, so the commit fails and the request is a 500 that removes nothing.
- A customer or good update naming `CreatedAt` or a relationship (`carts`, `wishlist`, `wishlisted_by`, `sales`, `reviews`) passes the `hasattr` test but fails. The relationship assignment raises, and the DateTime column rejects a JSON value at commit. Either way it is a 500 that changes nothing.

## Model

| member | source | states |
|---|---|---|
| `Validation.ValidateEmailIsPattern` | app/utils/validation.py:64-79 | The character scan accepts an email exactly when it matches `^[\w.-]+@[\w.-]+\.\w+$`: a non-empty local part, an '@', and a domain ending in '.' and at least one word character (both directions). |
| `Validation.ValidateUsername` | app/utils/validation.py:29-45 | Accepts a username exactly when it has 3 to 30 characters and no space (no `ensures`: the predicate is the rule; `UsernameCases` checks it). |
| `Validation.ValidatePassword` | app/utils/validation.py:47-62 | Accepts exactly the passwords of at least 8 characters drawn from letters, digits and `@$!%*?&`, with at least one of each class, which is what the pattern with three lookaheads matches (no `ensures`; `PasswordCases` checks it). |
| `Validation.ValidateEmail` | app/utils/validation.py:64-79 | The scan for the email pattern; `ValidateEmailIsPattern` proves it equal to the regular expression's language (no `ensures`). |
| `Validation.ValidateAge` | app/utils/validation.py:81-95 | Accepts exactly an `int` instance, `bool` included, above zero (no `ensures`). |
| `Validation.ValidateGender` | app/utils/validation.py:97-111 | Accepts exactly "Male", "Female" and "Other" (no `ensures`). |
| `Validation.ValidateMaritalStatus` | app/utils/validation.py:113-127 | Accepts exactly "Single", "Married", "Divorced" and "Widowed" (no `ensures`). |
| `Validation.ValidatePositiveFloat` | app/utils/validation.py:129-143 | Accepts exactly a `float` above zero; an `int` is refused (no `ensures`). |
| `Validation.ValidatePositiveInt` | app/utils/validation.py:145-159 | Accepts exactly an `int` instance, `bool` included, above zero (no `ensures`). |
| `Validation.UsernameCases` | tests/test_utils.py:76-96 | The username rule ("not empty, 3 to 30 characters, no space") accepts and rejects the test's usernames as the test expects. |
| `Validation.PasswordCases` | tests/test_utils.py:98-115 | The password rule accepts a password with a letter, a digit and one of `@$!%*?&` and at least 8 allowed characters, and rejects the test's weak passwords. |
| `Validation.EmailAccepted` | tests/test_utils.py:117-134 | A well-formed address is accepted. |
| `Validation.EmailRejected` | tests/test_utils.py:117-134 | Addresses without '@', with nothing after '@', or with an empty local part are rejected. |
| `Validation.NumberCases` | tests/test_utils.py:136-230 | Age, positive-int and positive-float checks reject zero, negatives and strings; gender and marital status accept exactly their listed values. |
| `Validation.BoolIsAnInt` | app/utils/validation.py:81-95 | `isinstance(True, int)` holds in Python, so `True` passes the age and positive-int checks, and an int fails the float check. |
| `Attributes.SetCustomerAttrEffect` | app/services/customers/customers.py:212-214 | One `setattr` changes exactly the column it names, and only when the value has that column's kind. |
| `Attributes.SetCustomerAttr` | app/services/customers/customers.py:213-214 | One `setattr` on a customer: a column gets a value of its kind, and anything else is skipped. `SetCustomerAttrEffect` states its effect (no `ensures`). |
| `Attributes.ApplyCustomerPatch` | app/services/customers/customers.py:212-214 | The update loop: the body's pairs written in order. `CustomerPatchLastWins` states the result (no `ensures`). |
| `Attributes.CustomerPatchLastWins` | app/services/customers/customers.py:212-214 | After the update loop, each column holds the last value the body gave it, or its old value if the body did not name it. |
| `Attributes.CustomerPatchSkipsUnknownKeys` | app/services/customers/customers.py:212-214 | Keys for which `hasattr` fails (neither a column nor a relationship) have no effect on the loop: its result equals the result with them filtered out. |
| `Attributes.CustomerPatchFailsFiltered` | app/services/customers/customers.py:212-215 | Filtering out the keys for which `hasattr` fails keeps every relationship and `CreatedAt` key, so the body breaks the update exactly when the filtered body does. |
| `Attributes.SetItemAttrEffect` | app/services/inventory.py:151-153 | One `setattr` on a good changes exactly the column it names, when the kind fits. |
| `Attributes.SetItemAttr` | app/services/inventory.py:152-153 | One `setattr` on a good: a column gets a value of its kind, and anything else is skipped. `SetItemAttrEffect` states its effect (no `ensures`). |
| `Attributes.ApplyItemPatch` | app/services/inventory.py:151-153 | The update loop over a good's body. `ItemPatchLastWins` states the result (no `ensures`). |
| `Attributes.ItemPatchLastWins` | app/services/inventory.py:151-153 | After the loop, each item column holds the body's last value for it, or its old value. |
| `Attributes.ItemPatchSkipsUnknownKeys` | app/services/inventory.py:151-153 | Keys for which `hasattr` fails (neither a column nor a relationship) have no effect on a good. |
| `Attributes.ItemPatchFailsFiltered` | app/services/inventory.py:151-154 | The good's body breaks the update exactly when the body without its unknown keys does. |
| `Customers.ViewHidesSecrets` | app/services/customers/customers.py:150-161 | The customer view does not depend on the password hash or the creation time; it shows the id, username and balance. |
| `Customers.GetAllCustomers` | app/services/customers/customers.py:140-161 | One view per customer, in table order. |
| `Customers.GetCustomer` | app/services/customers/customers.py:165-190 | A 404 "Customer not found" exactly when no customer has the username; otherwise the view of the first customer with it. |
| `Customers.GetCustomerIsListed` | app/services/customers/customers.py:140-190 | What the lookup by username returns appears in the full listing. |
| `Customers.FirstMissingFieldNone` | app/services/customers/customers.py:55-58 | The required-field loop finds no missing key exactly when all seven keys are present. |
| `Customers.NewCustomer` | app/services/customers/customers.py:71-83 | A registered customer starts with an empty wallet, the given username and password, the creation time `now` and an id above every existing one. |
| `Customers.RegisterStep` | app/services/customers/customers.py:38-84 | The checks run in order, each answering 400 with its own text: first missing key ("Missing field: K"), "Invalid username", "Invalid password", "Username already taken". A 201 "Customer registered successfully!" happens exactly when all pass, and then exactly one customer is appended. |
| `Customers.AddCustomerStep` | app/services/customers/customers.py:67-84 | A 400 "Username already taken" exactly when the username is used; otherwise one customer is appended and invariants are kept. |
| `Customers.Register` | app/services/customers/customers.py:38-84 | The loop over the required fields, then the checks, end in the state and response of `RegisterStep`. |
| `Customers.AddCustomer` | app/services/customers/customers.py:67-84 | Appends the new customer as `AddCustomerStep` says. |
| `Customers.LoginStep` | app/services/customers/customers.py:88-103 | A 401 "Invalid credentials" unless the first customer with the username has exactly that password; success yields that customer's id. |
| `Customers.RegisterThenLogin` | app/services/customers/customers.py:88-98 | Right after a successful registration, logging in with the same username and password succeeds and yields the new customer's id. |
| `Customers.UpdateCustomerStep` | app/services/customers/customers.py:193-217 | A 404 "Customer not found" exactly when the id is unknown. For a known id, a 200 "Customer information updated successfully!" exactly when no pair names a relationship or `CreatedAt` and the patched row clashes with no other row's id or username. A 200 changes only that row, to the patched record. Otherwise a 500 with the store unchanged. |
| `Customers.UpdateCustomer` | app/services/customers/customers.py:193-217 | The `setattr` loop over the body produces the state of `UpdateCustomerStep`. |
| `Customers.UpdateCustomerWrites` | app/services/customers/customers.py:212-217 | After a 200, each column of the updated customer holds the body's last value for it, or its old value. |
| `Customers.UpdateCustomerIgnoresUnknownKeys` | app/services/customers/customers.py:212-214 | The update answers and stores the same with and without the body's keys for which `hasattr` fails. |
| `Customers.UpdateCustomerRefusesCreatedAt` | app/services/customers/customers.py:212-215 | For a known customer, a body naming `CreatedAt`, or naming a relationship, is a 500 and changes nothing. |
| `Customers.DeleteCustomerStep` | app/services/customers/customers.py:221-239 | A 404 "Customer not found" exactly when the id is unknown. A 500 that changes nothing when a cart row, sale or review names the customer, whose `CustomerID` may not become NULL (app/database/models.py). Otherwise a 200 "Customer deleted successfully!": exactly that row goes, with the customer's wishlist pairs, no row with the id is left, and the other tables are unchanged. |
| `Customers.DeleteRefusedAfterSale` | app/services/customers/customers.py:236-237 | For a known customer with a sale in the ledger, the delete is a 500 and the store is unchanged. |
| `Customers.DeleteLeavesNoReference` | app/services/customers/customers.py:236-239 | After a successful delete, no customer row has the id, and no wishlist, cart, sale or review row names it. |
| `Customers.DeleteThenGetCustomer` | tests/test_customers.py:128-142 | After a deletion, the lookup by the deleted customer's username is a 404. |
| `Customers.DeleteCustomer` | app/services/customers/customers.py:221-239 | The delete and its commit, in place, as `DeleteCustomerStep` says. |
| `Customers.MoveWallet` | app/services/customers/customers.py:265-268 | `WalletBalance += delta` on one row; every other row is unchanged. |
| `Customers.MoveWalletKeepsUnique` | app/services/customers/customers.py:265-268 | Changing a balance keeps ids and usernames unique. |
| `Customers.ChargeWalletStep` | app/services/customers/customers.py:243-269 | A 400 "Invalid amount" for a missing, zero or negative amount; then a 404 "Customer not found" for an unknown id. Otherwise a 200 "Wallet charged successfully!" and the balance rises by the amount. |
| `Customers.DeductWalletStep` | app/services/customers/customers.py:273-301 | A 400 "Invalid amount", then a 404 "Customer not found", then a 400 "Insufficient funds" when the balance is below the amount. Otherwise a 200 "Wallet deducted successfully!" and the balance falls by the amount and stays non-negative. |
| `Customers.ChargeWallet` | app/services/customers/customers.py:243-269 | In-place `+=` as `ChargeWalletStep` says. |
| `Customers.DeductWallet` | app/services/customers/customers.py:273-301 | In-place `-=` as `DeductWalletStep` says. |
| `Customers.ChargeThenDeduct` | app/services/customers/customers.py:243-301 | Deducting what was just charged succeeds and restores the store exactly. |
| `Customers.ChargeAddsToWallets` | app/services/customers/customers.py:265-268 | A charge raises the sum of all balances by exactly the amount. |
| `Customers.AddToWishlistStep` | app/services/customers/customers.py:304-337 | A 400 "Missing item_id"; then a 404 "Customer or Item not found" when either is unknown; then a 400 "Item already in wishlist" for a listed pair. Otherwise a 201 "Item added to wishlist" and exactly one pair is appended. |
| `Customers.RemoveFromWishlistStep` | app/services/customers/customers.py:368-389 | A 404 "Item not found in wishlist" exactly when the pair is absent; otherwise that pair is removed. |
| `Customers.AddToWishlist` | app/services/customers/customers.py:304-337 | In-place insertion as `AddToWishlistStep` says. |
| `Customers.RemoveFromWishlist` | app/services/customers/customers.py:368-389 | In-place deletion as `RemoveFromWishlistStep` says. |
| `Customers.AddToWishlistTwice` | app/services/customers/customers.py:326-329 | Adding the same pair twice: the second add is a 400 and changes nothing. |
| `Customers.AddThenRemoveWishlist` | app/services/customers/customers.py:304-389 | Removing a pair just added succeeds and restores the wishlist's contents. |
| `Customers.ViewEntries` | app/services/customers/customers.py:354-361 | One view per entry, each with its item's name and price; fails exactly when an entry's item is gone. |
| `Customers.WishesOf` | app/services/customers/customers.py:351 | Exactly the customer's wishlist entries. |
| `Customers.ViewWishlist` | app/services/customers/customers.py:342-366 | A 500 exactly when one of the customer's pairs names a missing item. Otherwise one entry per pair of the customer, in table order, with the item's name. Every entry shown is a pair of the customer, and every pair of the customer is shown. |
| `Customers.ViewWishlistFails` | app/services/customers/customers.py:354-361 | Building the entries fails exactly when some pair of the customer names an item that is not in the table. |
| `Customers.ViewsAreListed` | app/services/customers/customers.py:354-361 | Each view comes from one of the customer's pairs and from an existing item, and each of the customer's pairs has a view. |
| `Customers.TestFormPasswordRejected` | tests/test_customers.py:52-76 | The registration test's body is refused with "Invalid password" on any store. |
| `LegacyCustomers.RegisterLegacyStep` | app/services/customers.py:34-73 | The first missing key gives a 400 "Missing field: K", then a taken username a 400 "Username already taken". A 201 "Customer registered successfully!" happens exactly when the body is complete and the username is free, and then exactly one customer is appended. |
| `LegacyCustomers.RegisterLegacy` | app/services/customers.py:34-73 | Its field loop and insertion end as `RegisterLegacyStep` says. |
| `LegacyCustomers.RegisterAgreesWithLegacy` | app/services/customers.py:34-73 | Both registrations agree when a key is missing, and when the username and password pass the rules; what the current one accepts, the old one accepts the same way. |
| `LegacyCustomers.LegacyAcceptsTestForm` | app/services/customers.py:52-73 | The older registration accepts the test's body on an empty store. |
| `Inventory.GetAllGoods` | app/services/inventory.py:78-98 | One view per good, in table order. |
| `Inventory.GetGood` | app/services/inventory.py:102-127 | A 404 "Good not found" exactly when no good has the id; otherwise that good's view. |
| `Inventory.FirstMissingGoodFieldNone` | app/services/inventory.py:58-61 | No missing key exactly when all five keys are present. |
| `Inventory.NewGood` | app/services/inventory.py:63-70 | The new good carries the body's five values, the creation time and a fresh id. |
| `Inventory.AddGoodStep` | app/services/inventory.py:40-74 | A 400 "Missing field: K" for the first missing key; otherwise a 201 and exactly one good is appended. |
| `Inventory.AddGood` | app/services/inventory.py:40-74 | The field loop and insertion end as `AddGoodStep` says. |
| `Inventory.AddThenGetGood` | app/services/inventory.py:102-127 | A good just added is found by its new id with the body's values. |
| `Inventory.UpdateGoodStep` | app/services/inventory.py:131-156 | A 404 "Good not found" exactly when the id is unknown. For a known id, a 200 "Good information updated successfully!" exactly when no pair names a relationship or `CreatedAt` and the patched row takes no other good's id. A 200 changes only that row, to the patched record. Otherwise a 500 with the store unchanged. |
| `Inventory.UpdateGood` | app/services/inventory.py:131-156 | The `setattr` loop ends in `UpdateGoodStep`'s state. |
| `Inventory.UpdateGoodWrites` | app/services/inventory.py:151-156 | After a 200, each column of the updated good holds the body's last value for it, or its old value. |
| `Inventory.UpdateGoodIgnoresUnknownKeys` | app/services/inventory.py:151-153 | The update answers and stores the same with and without the body's keys for which `hasattr` fails. |
| `Inventory.UpdateGoodRefusesCreatedAt` | app/services/inventory.py:151-154 | For a known good, a body naming `CreatedAt`, or naming a relationship, is a 500 and changes nothing. |
| `Inventory.NatToString` | app/services/inventory.py:190 | `str(quantity)` in the deduction's message: non-empty, decimal digits only, no leading zero, and reading the digits back gives the number. |
| `Inventory.DeductGoodStep` | app/services/inventory.py:160-190 | A 400 "Invalid quantity", then a 404 "Good not found" for an unknown id, then a 400 "Insufficient stock" when the stock is below the quantity. Otherwise the stock falls by the quantity and stays non-negative, with the message "N items deducted from stock". |
| `Inventory.DeductGood` | app/services/inventory.py:160-190 | In-place `-=` as `DeductGoodStep` says. |
| `Inventory.DeductTwice` | app/services/inventory.py:184-190 | Two successful deductions leave the store as one deduction of their sum. |
| `Inventory.AddTestGood` | tests/test_inventory.py:87-97 | Adding the test good to an empty store answers 201 with the test's text and id 1. |
| `Inventory.InventoryTestLookup` | tests/test_inventory.py:99-108 | The added good is found under id 1 with its name. |
| `Inventory.InventoryTestDeduct` | tests/test_inventory.py:124-138 | Deducting 2 from a stock of 10 leaves 8. |
| `Inventory.DeductFromOneGood` | app/services/inventory.py:184-190 | On a store holding one good, deducting a quantity the stock covers answers 200 and lowers that stock by the quantity. |
| `Inventory.InventoryTestUpdate` | tests/test_inventory.py:111-121 | Updating the price stores the new price. |
| `AuthInventory.AuthGate` | app/services/inventory/inventory.py:39-49 | A 401 "Token is missing" for no token, a 401 with the verifier's error for a rejected token, and nothing (pass) exactly when the token is present and valid. |
| `AuthInventory.Gated` | app/services/inventory/inventory.py:69-71 | A denied request answers exactly the gate's 401 response ("Token is missing" or the verifier's error) and changes nothing; a passed one is the open handler. |
| `AuthInventory.AuthAddGoodStep` | app/services/inventory/inventory.py:52-90 | The gate, then the same addition as the open inventory. |
| `AuthInventory.AuthUpdateGoodStep` | app/services/inventory/inventory.py:93-122 | The gate, then the same update. |
| `AuthInventory.AuthDeductGoodStep` | app/services/inventory/inventory.py:126-160 | The gate, then the same deduction. |
| `AuthInventory.AuthGetGood` | app/services/inventory/inventory.py:163-192 | The gate's 401; a 404 "Good not found" exactly when the id is unknown; otherwise the good's fields without its id. |
| `AuthInventory.AuthGetGoodAgrees` | app/services/inventory/inventory.py:183-192 | Past the gate, the lookup succeeds exactly when the open lookup does, and shows the same fields less the id. |
| `AuthInventory.AuthAddGood` | app/services/inventory/inventory.py:52-90 | In place, as `AuthAddGoodStep` says. |
| `AuthInventory.AuthUpdateGood` | app/services/inventory/inventory.py:93-122 | In place, as `AuthUpdateGoodStep` says. |
| `AuthInventory.AuthDeductGood` | app/services/inventory/inventory.py:126-160 | In place, as `AuthDeductGoodStep` says. |
| `Sales.DisplayGoods` | app/services/sales/sales.py:33-49 | One listing (name, price) per good with positive stock, in table order: the k-th listing is that of the k-th good in stock. A listing appears exactly when some good in stock has it. |
| `Sales.GetGoodsDetails` | app/services/sales/sales.py:55-87 | A 404 "Item not found" exactly when the id is unknown; otherwise that good's details. |
| `Sales.CreateSaleStep` | app/services/sales/sales.py:93-148 | The checks in order, each with its own text: 400 "Missing required fields", 404 "Customer not found", 404 "Item not found", 400 "Insufficient stock", 400 "Insufficient wallet balance". Only a 201 "Sale completed successfully" changes the store. A 201 happens exactly when all fields are present, the first customer with the username and the first good with the name exist, the stock covers the quantity and the wallet covers the price. The stock and wallet then fall by exactly the quantity and total price, and one sale is recorded under a fresh id. |
| `Sales.PurchaseIsFirstMatch` | app/services/sales/sales.py:123-134 | The purchase the guards allow is unique: the first customer with the username and the first good with the name. |
| `Sales.SaleApplied` | app/services/sales/sales.py:136-143 | The applied sale: the wallet falls by the total and the stock by the quantity. One ledger row is appended, with price times quantity as its total and an id no earlier sale has. The other tables are unchanged. |
| `Sales.SaleKeepsWellFormed` | app/services/sales/sales.py:136-143 | Changing one wallet and one stock and appending a fresh sale keeps the table invariants. |
| `Sales.CreateSale` | app/services/sales/sales.py:93-148 | The in-place `-=` updates and the insertion end as `CreateSaleStep` says. |
| `Sales.SaleConservesMoney` | app/services/sales/sales.py:132-143 | Every request keeps the sum of all wallets plus the sum of all sale totals unchanged. |
| `Sales.SaleAppliedConservesMoney` | app/services/sales/sales.py:136-143 | The applied sale moves exactly its total from the wallets to the ledger. |
| `Sales.SaleConservesStock` | app/services/sales/sales.py:136-143 | For every item, the stock plus the units sold is unchanged by every request. |
| `Sales.SaleAppliedConservesStock` | app/services/sales/sales.py:136-143 | The applied sale moves exactly its quantity from the stock to the ledger. |
| `Sales.NegativeQuantityIsAccepted` | app/services/sales/sales.py:118-134 | With a negative quantity on existing rows, the sale is accepted: no guard rejects it. |
| `Sales.BrowseTestCases` | tests/test_sales.py:88-116 | The sales test's store lists one good, "Laptop", at its price, with the expected details. |
| `Sales.SaleTestCompleted` | tests/test_sales.py:118-140 | Buying one laptop answers 201 and leaves 200 in the wallet and 9 in stock. |
| `Sales.SaleTestRejected` | tests/test_sales.py:143-175 | Buying two is "Insufficient wallet balance"; buying twenty is "Insufficient stock". |
| `Cart.AddToCartStep` | app/services/cart/cart.py:15-48 | A 400 "Missing item_id or quantity"; then a 404 "Customer or Item not found" when either is unknown. Otherwise a 200 "Item added to cart": an existing pair's quantity grows by the amount, or exactly one new row is appended. One row per pair is kept. |
| `Cart.AddToCart` | app/services/cart/cart.py:15-48 | The in-place `+=` or insertion, as `AddToCartStep` says. |
| `Cart.AddToCartQuantities` | app/services/cart/cart.py:38-43 | An accepted add raises the pair's units by exactly the quantity, and every other pair's units are unchanged. |
| `Cart.AddToCartTwice` | app/services/cart/cart.py:38-43 | A second add of the same pair finds the first add's row, so the table does not grow. |
| `Cart.RemoveFromCartStep` | app/services/cart/cart.py:76-93 | A 404 "Cart item not found" exactly when the pair has no row; otherwise a 200 "Item removed from cart", that row is removed and the pair has no units left. |
| `Cart.RemovedPairIsGone` | app/services/cart/cart.py:85-88 | With one row per pair, removing the pair's row leaves none of its units. |
| `Cart.RemoveFromCart` | app/services/cart/cart.py:76-93 | In-place deletion, as `RemoveFromCartStep` says. |
| `Cart.CartOf` | app/services/cart/cart.py:62 | Exactly the customer's cart rows. |
| `Cart.ViewRows` | app/services/cart/cart.py:63-68 | One view per row with the item's id, name, quantity and time; fails exactly when a row's item is gone. |
| `Cart.ViewCart` | app/services/cart/cart.py:53-71 | A 500 exactly when one of the customer's rows names a missing item. Otherwise the k-th row shown is the k-th cart entry of the customer (item, quantity, time) with its item's name. Every row shown comes from an entry of the customer, and every entry of the customer is shown. |
| `Cart.CartRowsListed` | app/services/cart/cart.py:62-68 | Each view row comes from an entry of the customer and an existing item, and each entry of the customer has a view row. |
| `Cart.SweepPartitions` | app/services/cart/cart.py:101-107 | Every cart row is either abandoned (added more than 24 hours before `now`) or kept, and the two parts make up the table. |
| `Cart.Notices` | app/services/cart/cart.py:103-106 | One notification per abandoned row, each naming the username of an existing customer with that row's customer id. |
| `Cart.SweepStep` | app/services/cart/cart.py:98-113 | The sweep commits exactly when every abandoned row's customer exists; it then deletes exactly the abandoned rows and notifies one username per row. Otherwise it rolls back, changing nothing, after notifying the rows before the first orphan. |
| `Cart.SweepKeepsOnlyRecent` | app/services/cart/cart.py:101-108 | After a committed sweep, a row remains exactly when it was in the table and is at most 24 hours old; the removed rows are exactly the abandoned ones. |
| `Cart.IdentifyAbandonedCarts` | app/services/cart/cart.py:98-113 | The loop over the abandoned rows, with its early exit on a missing customer, ends as `SweepStep` says. |
| `Cart.SweepCommits` | app/services/cart/cart.py:103-108 | With every customer present, the sweep notifies all the abandoned rows and commits. |
| `Cart.SweepAborts` | app/services/cart/cart.py:109-111 | At the first row whose customer is gone, the sweep rolls back with the notices of the rows before it. |
| `Reviews.SubmitReviewStep` | app/services/reviews.py:46-71 | A 500 if CustomerID, ItemID or Rating is missing. Otherwise a 201 and exactly one review is appended under a fresh id, with an empty comment when none is given. |
| `Reviews.NewReview` | app/services/reviews.py:58-66 | A new review carries the body's customer, item and rating, the comment or "" when none is given, flag 0, the time `now` and an id above every existing one. |
| `Reviews.SubmitReview` | app/services/reviews.py:46-71 | Inserts as `SubmitReviewStep` says and returns the new review's id. |
| `Reviews.UpdateReviewStep` | app/services/reviews.py:75-99 | A 404 "Review not found" exactly when the id is unknown. Otherwise only that review changes: rating and comment take the body's values where present and keep their old ones where absent. |
| `Reviews.UpdateReview` | app/services/reviews.py:75-99 | In-place assignment, as `UpdateReviewStep` says. |
| `Reviews.EmptyUpdateKeepsReview` | app/services/reviews.py:95-96 | An update with neither key leaves the store exactly as it was. |
| `Reviews.DeleteReviewStep` | app/services/reviews.py:103-122 | A 404 exactly when the id is unknown; otherwise exactly that review is removed and no review with the id is left. |
| `Reviews.DeletedReviewIsGone` | app/services/reviews.py:119-120 | With unique ids, nothing is found under the deleted review's id. |
| `Reviews.DeleteReview` | app/services/reviews.py:103-122 | In-place deletion, as `DeleteReviewStep` says. |
| `Reviews.ModerateReviewStep` | app/services/reviews.py:175-198 | A 404 "Review not found" for an unknown id; a 500 when IsFlagged is missing; both change nothing. Otherwise a 200 "Review moderation updated successfully!" and only the flag of that review changes, to the given value. |
| `Reviews.ModerateReview` | app/services/reviews.py:175-198 | In-place assignment, as `ModerateReviewStep` says, echoing the new flag. |
| `Reviews.ModerateLastWins` | app/services/reviews.py:195 | Moderating twice equals moderating once with the second flag. |
| `Reviews.ProductReviews` | app/services/reviews.py:127-147 | The k-th row is the view of the k-th review with that ItemID, in table order. A row appears exactly when some review of the product has it. |
| `Reviews.CustomerReviews` | app/services/reviews.py:151-171 | The k-th row is the view of the k-th review with that CustomerID, in table order. A row appears exactly when some review by the customer has it. |
| `Reviews.ReviewIsListedTwice` | app/services/reviews.py:139-171 | Every review appears in its product's listing and in its author's listing. |
| `Reviews.GetReviewDetails` | app/services/reviews.py:202-236 | A 404 "Review not found" exactly when the id is unknown; a 500 exactly when its customer or product is gone; otherwise the review with its author's full name and product's name. |
| `Reviews.ReviewTestSubmit` | tests/test_reviews.py:108-182 | The first submission gets id 1 and appears once in the product's and the customer's listing. |
| `Reviews.ReviewTestDetails` | tests/test_reviews.py:198-213 | The detail view names "Jane Doe" and "Laptop" with the submitted rating. |
| `Reviews.ReviewTestChanges` | tests/test_reviews.py:121-196 | Updating, moderating (flag 1) and deleting review 1 succeed with the tests' texts. |
| `Recommendations.Purchased` | app/services/recommendations/recommendations.py:28-29 | An id is in the set exactly when one of the customer's sales is of that item. |
| `Recommendations.CountOf` | app/services/recommendations/recommendations.py:32-36 | The number of sales of an item is zero exactly when no sale is of it, and is at most the number of sales. |
| `Recommendations.KeyOrder` | app/services/recommendations/recommendations.py:32-36 | The counter's keys are the purchased items that were sold, each once. |
| `Recommendations.CountCoPurchases` | app/services/recommendations/recommendations.py:32-36 | The counting loop's map has exactly those keys, each mapped to its number of sales, in insertion order. |
| `Recommendations.InsertByCount` | app/services/recommendations/recommendations.py:39 | Insertion into a list sorted by descending count keeps it sorted and adds exactly the element. |
| `Recommendations.SortByCount` | app/services/recommendations/recommendations.py:39 | The ranking is a permutation of the keys in non-increasing order of count. |
| `Recommendations.RecommendProducts` | app/services/recommendations/recommendations.py:15-50 | At most five results, none already purchased, each from the item table, and as written always none. |
| `Recommendations.RankingOrdersBySales` | app/services/recommendations/recommendations.py:39 | An item ranked before another was sold at least as often. |

## Left out

- Flask routing, JSON encoding, sessions, `commit` and `close`. Each handler is one step over the store and answers a status code plus the "message" or "error" text. Extra response fields (the login token, a review's id, a moderation flag) are returned by the methods where the source computes them.
- JWT issuance and verification (`app/utils/authentication.py`): a foreign library with a wall clock. The verifier's answer is the parameter `AuthInventory.Verdict`. `LoginStep` returns the id the token would carry. `validate_code_usage` and `protected_route` are not modelled.
- Floating point: money is integer cents, so rounding of `float` prices and balances is not captured.
- JSON value types: a body value of the wrong type, or an explicit `null`, is not modelled. Values are either present with their expected type or absent. In the update loops a text or number whose kind does not fit its text or number column is skipped, where SQLite would store it. (`CreatedAt` and the relationships are modelled: they fail the update.)
- `hasattr` holds for more than the columns and relationships: the class's `metadata`, `__tablename__`, `_sa_instance_state` and its methods. A body naming one of those is treated as an unknown key and skipped; the effect of assigning to them is not modelled.
- Python regex details: the model takes `\w` and `\d` as ASCII, where Python's `str` patterns also match Unicode word characters and digits. `$` matching before a trailing newline is not captured.
- Exceptions other than the ones named in the contracts (database errors, a 500 from an unexpected failure) are not modelled. `Store.InternalError` is the answer of the error handler in `app/app.py` to an exception no route catches, "Internal server error". (With Flask's debug mode the exception propagates instead, and that is not modelled.) The routes that catch an exception themselves answer with its message, which the model does not spell out except for `Store.MissingItemError`.
- Deleting a customer whose cart rows, sales or reviews still name it is a 500 (see `Customers.DeleteCustomerStep`). The exception's own text and the rollback of the session are not modelled beyond "nothing changes".
- `Wishlist` is imported by the customer service (`app/services/customers/customers.py`), but the schema defines only the association table `wishlist_table`. As written, that module fails to import, so none of its handlers can run. The model gives the module the behaviour the handlers are written for, with the wishlist as one row per pair.
- The `Review` class of the schema has no `IsFlagged` column, though the handlers read and write it. As written, every non-empty product or customer listing and every detail view raises on `review.IsFlagged`, so each is a 500. Moderation sets a plain Python attribute that is never stored, yet answers 200. The model gives reviews the column the handlers are written for: an integer, 0 for a new review.
- The foreign keys of reviews are not enforced (SQLite's default), so `SubmitReviewStep` accepts any customer and item id. Nor are the CHECK constraints of `create_database.py` (`Quantity > 0`, `StockCount >= 0`, the rating range from 1 to 5, the age and the enumerated texts). The model assumes the schema of `app/database/models.py`, which has none of them; under the setup script's tables, a sale or cart row with a non-positive quantity, or a stock driven below zero, would fail at commit instead.
- The abandoned-cart sweep's `print` becomes the returned list of notified usernames, and the clock becomes the parameter `now`. The deletions the loop queues are applied together at the commit.
- Concurrency: there is none in the source. Each handler runs as one sequential step.
- The setup scripts, configuration, profiling, documentation generation and error pages are not part of this model.
- `Recommendations.SortByCount`: it is a stable insertion sort like Python's `sorted`, but stability (ties keep insertion order) is not stated in its contract.
