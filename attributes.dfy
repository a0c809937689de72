/** The field-by-field update of `update_customer` and `update_good`: every key of the
    JSON body that names a column of the row is written with its value, in body order,
    and every key that is no attribute of the row is skipped. A key naming a
    relationship, or the DateTime column `CreatedAt`, makes the update fail. */
module Attributes {
  import opened Seqs
  import opened Store

  /** A JSON value of a request body: text or a number (money in cents). */
  datatype Value = Text(s: string) | Number(n: int)

  /** One key/value pair of a JSON body, in the order the body lists them. */
  datatype Patch = Patch(key: string, value: Value)

  /** The kind of value a column holds. No JSON value has `DateTimeKind`: a DateTime
      column accepts only Python `datetime` objects, and SQLite's DateTime type raises
      at flush for anything else. */
  datatype Kind = TextKind | NumberKind | DateTimeKind

  function KindOf(v: Value): Kind {
    if v.Text? then TextKind else NumberKind
  }

  /** The last value written to `key` with the column's kind, if any. */
  function LastFit(data: seq<Patch>, key: string, kind: Kind): Option<Value> {
    if |data| == 0 then None
    else
      var p := data[|data| - 1];
      if p.key == key && KindOf(p.value) == kind then Some(p.value)
      else LastFit(data[..|data| - 1], key, kind)
  }

  // Customers

  /** The columns of the Customer table and the kind of value each holds. */
  function CustomerKind(key: string): Option<Kind> {
    if key in ["CustomerID", "Age", "WalletBalance"] then Some(NumberKind)
    else if key in ["FullName", "Username", "PasswordHash", "Address", "Gender", "MaritalStatus"] then Some(TextKind)
    else if key == "CreatedAt" then Some(DateTimeKind)
    else None
  }

  /** The relationships of a customer (`carts`, `wishlist`, and the `sales` and
      `reviews` backrefs): `hasattr` holds for them, and assigning a JSON text or
      number to one of these collections raises. */
  const CustomerRelations: seq<string> := ["carts", "wishlist", "sales", "reviews"]

  /** `hasattr(customer, key)`, for the attributes the mapping defines. */
  predicate IsCustomerAttribute(p: Patch) {
    CustomerKind(p.key).Some? || p.key in CustomerRelations
  }

  /** A pair the update cannot complete: `setattr` raises on a relationship, and a
      `CreatedAt` value fails when the session flushes. */
  predicate BreaksCustomerUpdate(p: Patch) {
    p.key in CustomerRelations || CustomerKind(p.key) == Some(DateTimeKind)
  }

  predicate CustomerPatchFails(data: seq<Patch>) {
    exists k :: 0 <= k < |data| && BreaksCustomerUpdate(data[k])
  }

  /** `getattr(customer, key)` for a column `key`. */
  function CustomerAttr(c: Customer, key: string): Option<Value> {
    if key == "CustomerID" then Some(Number(c.id))
    else if key == "FullName" then Some(Text(c.fullName))
    else if key == "Username" then Some(Text(c.username))
    else if key == "PasswordHash" then Some(Text(c.passwordHash))
    else if key == "Age" then Some(Number(c.age))
    else if key == "Address" then Some(Text(c.address))
    else if key == "Gender" then Some(Text(c.gender))
    else if key == "MaritalStatus" then Some(Text(c.maritalStatus))
    else if key == "WalletBalance" then Some(Number(c.walletBalance))
    else if key == "CreatedAt" then Some(Number(c.createdAt))
    else None
  }

  /** `if hasattr(customer, key): setattr(customer, key, value)` for a column `key`.
      A `CreatedAt` value never fits its column and is left to the failing flush. */
  function SetCustomerAttr(c: Customer, p: Patch): Customer {
    var v := p.value;
    if CustomerKind(p.key) != Some(KindOf(v)) then c
    else if p.key == "CustomerID" then c.(id := v.n)
    else if p.key == "FullName" then c.(fullName := v.s)
    else if p.key == "Username" then c.(username := v.s)
    else if p.key == "PasswordHash" then c.(passwordHash := v.s)
    else if p.key == "Age" then c.(age := v.n)
    else if p.key == "Address" then c.(address := v.s)
    else if p.key == "Gender" then c.(gender := v.s)
    else if p.key == "MaritalStatus" then c.(maritalStatus := v.s)
    else if p.key == "WalletBalance" then c.(walletBalance := v.n)
    else c
  }

  /** The loop over the body's pairs, applied in order. */
  function ApplyCustomerPatch(c: Customer, data: seq<Patch>): Customer {
    if |data| == 0 then c
    else SetCustomerAttr(ApplyCustomerPatch(c, data[..|data| - 1]), data[|data| - 1])
  }

  /** A write changes exactly the column it names, when the value has that column's kind. */
  lemma SetCustomerAttrEffect(c: Customer, p: Patch, key: string)
    ensures CustomerAttr(SetCustomerAttr(c, p), key)
            == if key == p.key && CustomerKind(key) == Some(KindOf(p.value)) then Some(p.value)
               else CustomerAttr(c, key)
  {
  }

  /** After the update, each column holds the last value the body gave it (with the
      column's kind), or its old value when the body did not name it. */
  lemma {:induction false} CustomerPatchLastWins(c: Customer, data: seq<Patch>, key: string)
    requires CustomerKind(key).Some?
    ensures CustomerAttr(ApplyCustomerPatch(c, data), key)
            == var w := LastFit(data, key, CustomerKind(key).value);
               if w.Some? then w else CustomerAttr(c, key)
  {
    if |data| > 0 {
      CustomerPatchLastWins(c, data[..|data| - 1], key);
      SetCustomerAttrEffect(ApplyCustomerPatch(c, data[..|data| - 1]), data[|data| - 1], key);
    }
  }

  /** Keys for which `hasattr` fails change nothing. */
  lemma {:induction false} CustomerPatchSkipsUnknownKeys(c: Customer, data: seq<Patch>)
    ensures ApplyCustomerPatch(c, data) == ApplyCustomerPatch(c, Filter(data, IsCustomerAttribute))
  {
    if |data| > 0 {
      var init, last := data[..|data| - 1], data[|data| - 1];
      var known := IsCustomerAttribute;
      CustomerPatchSkipsUnknownKeys(c, init);
      FilterSnoc(data, |data| - 1, known);
      assert data[..|data|] == data;
      var kept := Filter(init, known);
      if known(last) {
        assert (kept + [last])[..|kept|] == kept;
      }
    }
  }

  /** Dropping the keys for which `hasattr` fails keeps every key that breaks the update. */
  lemma CustomerPatchFailsFiltered(data: seq<Patch>)
    ensures CustomerPatchFails(data) <==> CustomerPatchFails(Filter(data, IsCustomerAttribute))
  {
    var kept := Filter(data, IsCustomerAttribute);
    if CustomerPatchFails(data) {
      var k :| 0 <= k < |data| && BreaksCustomerUpdate(data[k]);
      assert data[k] in kept;
      var m :| 0 <= m < |kept| && kept[m] == data[k];
    }
    if CustomerPatchFails(kept) {
      var m :| 0 <= m < |kept| && BreaksCustomerUpdate(kept[m]);
      assert kept[m] in data;
      var k :| 0 <= k < |data| && data[k] == kept[m];
    }
  }

  // Inventory items

  /** The columns of the InventoryItem table and the kind of value each holds. */
  function ItemKind(key: string): Option<Kind> {
    if key in ["ItemID", "PricePerItem", "StockCount"] then Some(NumberKind)
    else if key in ["Name", "Category", "Description"] then Some(TextKind)
    else if key == "CreatedAt" then Some(DateTimeKind)
    else None
  }

  /** The relationships of a good (`wishlisted_by`, `carts`, and the `sales` and
      `reviews` backrefs). */
  const ItemRelations: seq<string> := ["wishlisted_by", "carts", "sales", "reviews"]

  /** `hasattr(good, key)`, for the attributes the mapping defines. */
  predicate IsItemAttribute(p: Patch) {
    ItemKind(p.key).Some? || p.key in ItemRelations
  }

  predicate BreaksItemUpdate(p: Patch) {
    p.key in ItemRelations || ItemKind(p.key) == Some(DateTimeKind)
  }

  predicate ItemPatchFails(data: seq<Patch>) {
    exists k :: 0 <= k < |data| && BreaksItemUpdate(data[k])
  }

  /** `getattr(good, key)` for a column `key`. */
  function ItemAttr(it: Item, key: string): Option<Value> {
    if key == "ItemID" then Some(Number(it.id))
    else if key == "Name" then Some(Text(it.name))
    else if key == "Category" then Some(Text(it.category))
    else if key == "PricePerItem" then Some(Number(it.pricePerItem))
    else if key == "Description" then Some(Text(it.description))
    else if key == "StockCount" then Some(Number(it.stockCount))
    else if key == "CreatedAt" then Some(Number(it.createdAt))
    else None
  }

  /** `if hasattr(good, key): setattr(good, key, value)` for a column `key`. */
  function SetItemAttr(it: Item, p: Patch): Item {
    var v := p.value;
    if ItemKind(p.key) != Some(KindOf(v)) then it
    else if p.key == "ItemID" then it.(id := v.n)
    else if p.key == "Name" then it.(name := v.s)
    else if p.key == "Category" then it.(category := v.s)
    else if p.key == "PricePerItem" then it.(pricePerItem := v.n)
    else if p.key == "Description" then it.(description := v.s)
    else if p.key == "StockCount" then it.(stockCount := v.n)
    else it
  }

  function ApplyItemPatch(it: Item, data: seq<Patch>): Item {
    if |data| == 0 then it
    else SetItemAttr(ApplyItemPatch(it, data[..|data| - 1]), data[|data| - 1])
  }

  lemma SetItemAttrEffect(it: Item, p: Patch, key: string)
    ensures ItemAttr(SetItemAttr(it, p), key)
            == if key == p.key && ItemKind(key) == Some(KindOf(p.value)) then Some(p.value)
               else ItemAttr(it, key)
  {
  }

  lemma {:induction false} ItemPatchLastWins(it: Item, data: seq<Patch>, key: string)
    requires ItemKind(key).Some?
    ensures ItemAttr(ApplyItemPatch(it, data), key)
            == var w := LastFit(data, key, ItemKind(key).value);
               if w.Some? then w else ItemAttr(it, key)
  {
    if |data| > 0 {
      ItemPatchLastWins(it, data[..|data| - 1], key);
      SetItemAttrEffect(ApplyItemPatch(it, data[..|data| - 1]), data[|data| - 1], key);
    }
  }

  lemma {:induction false} ItemPatchSkipsUnknownKeys(it: Item, data: seq<Patch>)
    ensures ApplyItemPatch(it, data) == ApplyItemPatch(it, Filter(data, IsItemAttribute))
  {
    if |data| > 0 {
      var init, last := data[..|data| - 1], data[|data| - 1];
      var known := IsItemAttribute;
      ItemPatchSkipsUnknownKeys(it, init);
      FilterSnoc(data, |data| - 1, known);
      assert data[..|data|] == data;
      var kept := Filter(init, known);
      if known(last) {
        assert (kept + [last])[..|kept|] == kept;
      }
    }
  }

  lemma ItemPatchFailsFiltered(data: seq<Patch>)
    ensures ItemPatchFails(data) <==> ItemPatchFails(Filter(data, IsItemAttribute))
  {
    var kept := Filter(data, IsItemAttribute);
    if ItemPatchFails(data) {
      var k :| 0 <= k < |data| && BreaksItemUpdate(data[k]);
      assert data[k] in kept;
      var m :| 0 <= m < |kept| && kept[m] == data[k];
    }
    if ItemPatchFails(kept) {
      var m :| 0 <= m < |kept| && BreaksItemUpdate(kept[m]);
      assert kept[m] in data;
      var k :| 0 <= k < |data| && data[k] == kept[m];
    }
  }
}
