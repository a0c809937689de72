/** The inventory service: adding goods, the listings, the field-by-field update and
    the stock deduction. */
module Inventory {
  import opened Seqs
  import opened Store
  import opened Attributes

  /** What the inventory listings show of a good: every column but the creation time. */
  datatype GoodView = GoodView(
    id: int, name: string, category: string, pricePerItem: int, description: string, stockCount: int)

  function GoodViewOf(it: Item): GoodView {
    GoodView(it.id, it.name, it.category, it.pricePerItem, it.description, it.stockCount)
  }

  /** Every good in table order, whatever its stock. */
  function GetAllGoods(items: seq<Item>): (r: seq<GoodView>)
    ensures |r| == |items|
    ensures forall k :: 0 <= k < |items| ==> r[k] == GoodViewOf(items[k])
  {
    Map(items, GoodViewOf)
  }

  /** The first good with the id, or 404. */
  function GetGood(items: seq<Item>, itemId: int): (r: Reply<GoodView>)
    ensures r.Err? <==> forall k :: 0 <= k < |items| ==> items[k].id != itemId
    ensures r.Err? ==> r.resp == Response(404, "Good not found")
    ensures r.Ok? ==> r.value.id == itemId
    ensures r.Ok? ==> exists k :: 0 <= k < |items| && items[k].id == itemId && r.value == GoodViewOf(items[k])
  {
    match ItemById(items, itemId)
    case None => Err(Response(404, "Good not found"))
    case Some(k) => Ok(GoodViewOf(items[k]))
  }

  // Adding a good

  /** The body of an add request; `None` is a key the body does not have. */
  datatype GoodForm = GoodForm(
    name: Option<string>, category: Option<string>, pricePerItem: Option<int>,
    description: Option<string>, stockCount: Option<int>)

  /** The keys adding a good demands, in the order it checks them. */
  const GoodFields: seq<string> := ["Name", "Category", "PricePerItem", "Description", "StockCount"]

  /** `field in data` */
  predicate HasGoodField(form: GoodForm, field: string) {
    if field == "Name" then form.name.Some?
    else if field == "Category" then form.category.Some?
    else if field == "PricePerItem" then form.pricePerItem.Some?
    else if field == "Description" then form.description.Some?
    else if field == "StockCount" then form.stockCount.Some?
    else false
  }

  function LacksGoodField(form: GoodForm): string -> bool {
    (field: string) => !HasGoodField(form, field)
  }

  function FirstMissingGoodField(form: GoodForm): Option<nat> {
    FirstIndex(GoodFields, LacksGoodField(form))
  }

  predicate GoodComplete(form: GoodForm) {
    form.name.Some? && form.category.Some? && form.pricePerItem.Some? && form.description.Some? && form.stockCount.Some?
  }

  lemma FirstMissingGoodFieldNone(form: GoodForm)
    ensures FirstMissingGoodField(form).None? <==> GoodComplete(form)
  {
    if GoodComplete(form) {
      assert forall k :: 0 <= k < |GoodFields| ==> HasGoodField(form, GoodFields[k]);
    } else {
      var field :=
        if form.name.None? then 0 else if form.category.None? then 1
        else if form.pricePerItem.None? then 2 else if form.description.None? then 3 else 4;
      assert LacksGoodField(form)(GoodFields[field]);
    }
  }

  /** The row a complete body creates: the next id and the body's fields. */
  function NewGood(items: seq<Item>, form: GoodForm, now: int): (it: Item)
    requires GoodComplete(form)
    ensures it.name == form.name.value && it.category == form.category.value
    ensures it.pricePerItem == form.pricePerItem.value && it.description == form.description.value
    ensures it.stockCount == form.stockCount.value && it.createdAt == now
    ensures forall k :: 0 <= k < |items| ==> items[k].id < it.id
  {
    Item(NewItemId(items), form.name.value, form.category.value, form.pricePerItem.value,
         form.description.value, form.stockCount.value, now)
  }

  /** Adding: the first missing key is a 400 and adds nothing; otherwise exactly one
      good with the body's fields is appended. */
  function AddGoodStep(db: Db, form: GoodForm, now: int): (r: Step)
    ensures r.resp.code in {201, 400}
    ensures r.resp.code == 400 <==> FirstMissingGoodField(form).Some?
    ensures r.resp.code == 400 ==>
              r.db == db && r.resp == Response(400, "Missing field: " + GoodFields[FirstMissingGoodField(form).value])
    ensures r.resp.code == 201 ==> GoodComplete(form) && r.db == db.(items := db.items + [NewGood(db.items, form, now)])
    ensures WellFormed(db) ==> WellFormed(r.db)
  {
    FirstMissingGoodFieldNone(form);
    match FirstMissingGoodField(form)
    case Some(i) => Step(Response(400, "Missing field: " + GoodFields[i]), db)
    case None =>
      var it := NewGood(db.items, form, now);
      DistinctAppend(db.items, it, ItemIdOf);
      Step(Response(201, "Good added to inventory successfully!"), db.(items := db.items + [it]))
  }

  method AddGood(shop: Shop, form: GoodForm, now: int) returns (resp: Response)
    modifies shop
    ensures Step(resp, shop.Snapshot()) == AddGoodStep(old(shop.Snapshot()), form, now)
  {
    FirstMissingGoodFieldNone(form);
    for i := 0 to |GoodFields|
      invariant forall k :: 0 <= k < i ==> HasGoodField(form, GoodFields[k])
    {
      if !HasGoodField(form, GoodFields[i]) {
        FirstIndexIs(GoodFields, LacksGoodField(form), i);
        return Response(400, "Missing field: " + GoodFields[i]);
      }
    }
    shop.items := shop.items + [NewGood(shop.items, form, now)];
    resp := Response(201, "Good added to inventory successfully!");
  }

  /** A good just added is found under the id it was given, with the body's fields. */
  lemma AddThenGetGood(db: Db, form: GoodForm, now: int)
    requires AddGoodStep(db, form, now).resp.code == 201
    ensures var after := AddGoodStep(db, form, now).db;
            GetGood(after.items, NewItemId(db.items)) == Ok(GoodViewOf(NewGood(db.items, form, now)))
  {
    var after := AddGoodStep(db, form, now).db;
    FirstIndexIs(after.items, (it: Item) => it.id == NewItemId(db.items), |db.items|);
  }

  // The field-by-field update

  /** Another good already has the id `it` would get: the primary key fails at commit. */
  predicate ItemCollides(items: seq<Item>, i: nat, it: Item) {
    exists k :: 0 <= k < |items| && k != i && items[k].id == it.id
  }

  /** The update of good `i` fails as a whole: a pair names a relationship or the
      DateTime column, or the patched row takes another good's id. */
  predicate UpdateGoodFails(items: seq<Item>, i: nat, data: seq<Patch>)
    requires i < |items|
  {
    ItemPatchFails(data) || ItemCollides(items, i, ApplyItemPatch(items[i], data))
  }

  /** The update: 404 for an unknown id; otherwise every pair of the body that names a
      column with a value of its kind is written, in order. A pair naming a relationship
      raises in `setattr`, a `CreatedAt` value and a result that takes another good's id
      fail at commit: each is a 500 that changes nothing. */
  function UpdateGoodStep(db: Db, itemId: int, data: seq<Patch>): (r: Step)
    ensures r.resp.code in {200, 404, 500}
    ensures r.resp.code != 200 ==> r.db == db
    ensures r.resp.code == 404 <==> forall k :: 0 <= k < |db.items| ==> db.items[k].id != itemId
    ensures r.resp.code == 404 ==> r.resp == Response(404, "Good not found")
    ensures r.resp.code == 500 ==> r.resp == InternalError
    ensures ItemById(db.items, itemId).Some? ==>
              (r.resp.code == 200 <==> !UpdateGoodFails(db.items, ItemById(db.items, itemId).value, data))
    ensures r.resp.code == 200 ==>
              var i := ItemById(db.items, itemId).value;
              && r.resp == Response(200, "Good information updated successfully!")
              && |r.db.items| == |db.items|
              && r.db.items[i] == ApplyItemPatch(db.items[i], data)
              && (forall k :: 0 <= k < |db.items| && k != i ==> r.db.items[k] == db.items[k])
              && r.db == db.(items := r.db.items)
    ensures WellFormed(db) ==> WellFormed(r.db)
  {
    match ItemById(db.items, itemId)
    case None => Step(Response(404, "Good not found"), db)
    case Some(i) =>
      var it := ApplyItemPatch(db.items[i], data);
      if ItemPatchFails(data) || ItemCollides(db.items, i, it) then Step(InternalError, db)
      else
        DistinctUpdate(db.items, i, it, ItemIdOf);
        Step(Response(200, "Good information updated successfully!"), db.(items := db.items[i := it]))
  }

  method UpdateGood(shop: Shop, itemId: int, data: seq<Patch>) returns (resp: Response)
    modifies shop
    ensures Step(resp, shop.Snapshot()) == UpdateGoodStep(old(shop.Snapshot()), itemId, data)
  {
    var ii := ItemById(shop.items, itemId);
    if ii.None? {
      return Response(404, "Good not found");
    }
    var good := shop.items[ii.value];
    var badDate := false;
    for k := 0 to |data|
      invariant good == ApplyItemPatch(shop.items[ii.value], data[..k])
      invariant forall j :: 0 <= j < k ==> data[j].key !in ItemRelations
      invariant badDate <==> exists j :: 0 <= j < k && ItemKind(data[j].key) == Some(DateTimeKind)
    {
      if data[k].key in ItemRelations {
        // assigning to a relationship collection raises
        assert BreaksItemUpdate(data[k]);
        return InternalError;
      }
      assert data[..k + 1][..k] == data[..k];
      badDate := badDate || ItemKind(data[k].key) == Some(DateTimeKind);
      good := SetItemAttr(good, data[k]);
    }
    assert data[..|data|] == data;
    assert badDate <==> ItemPatchFails(data);
    // the flush at commit rejects a non-datetime CreatedAt and a clashing id
    if badDate || ItemCollides(shop.items, ii.value, good) {
      return InternalError;
    }
    shop.items := shop.items[ii.value := good];
    resp := Response(200, "Good information updated successfully!");
  }

  /** After an update that succeeds, each column of the good holds the body's last value
      of the column's kind, or its old value when the body gives none. */
  lemma UpdateGoodWrites(db: Db, itemId: int, data: seq<Patch>, key: string)
    requires UpdateGoodStep(db, itemId, data).resp.code == 200
    requires ItemKind(key).Some?
    ensures var i := ItemById(db.items, itemId).value;
            ItemAttr(UpdateGoodStep(db, itemId, data).db.items[i], key)
            == var w := LastFit(data, key, ItemKind(key).value);
               if w.Some? then w else ItemAttr(db.items[i], key)
  {
    var i := ItemById(db.items, itemId).value;
    ItemPatchLastWins(db.items[i], data, key);
  }

  /** Keys for which `hasattr` fails are ignored by the update. */
  lemma UpdateGoodIgnoresUnknownKeys(db: Db, itemId: int, data: seq<Patch>)
    ensures UpdateGoodStep(db, itemId, data) == UpdateGoodStep(db, itemId, Filter(data, IsItemAttribute))
  {
    ItemPatchFailsFiltered(data);
    if ItemById(db.items, itemId).Some? {
      ItemPatchSkipsUnknownKeys(db.items[ItemById(db.items, itemId).value], data);
    }
  }

  /** A body naming `CreatedAt` or a relationship is refused for every known good. */
  lemma UpdateGoodRefusesCreatedAt(db: Db, itemId: int, v: Value, relation: string, w: Value)
    requires ItemById(db.items, itemId).Some?
    requires relation in ItemRelations
    ensures UpdateGoodStep(db, itemId, [Patch("CreatedAt", v)]) == Step(InternalError, db)
    ensures UpdateGoodStep(db, itemId, [Patch(relation, w)]) == Step(InternalError, db)
  {
    assert BreaksItemUpdate([Patch("CreatedAt", v)][0]);
    assert BreaksItemUpdate([Patch(relation, w)][0]);
  }

  // Deducting stock

  /** `str(n)` for a natural number: its decimal digits, most significant first, with
      no leading zero; reading the digits back gives `n`. */
  function NatToString(n: nat): (r: string)
    ensures |r| > 0 && (forall k :: 0 <= k < |r| ==> '0' <= r[k] <= '9')
    ensures r[0] != '0' || n == 0
    ensures DigitsValue(r) == n
  {
    if n < 10 then ["0123456789"[n]]
    else
      var init := NatToString(n / 10);
      var r := init + ["0123456789"[n % 10]];
      assert r[..|r| - 1] == init;
      r
  }

  /** The number a string of decimal digits denotes. */
  function DigitsValue(s: string): int {
    if |s| == 0 then 0 else 10 * DigitsValue(s[..|s| - 1]) + (s[|s| - 1] as int - '0' as int)
  }

  /** Deducting: a missing, zero or negative quantity is a 400 before any lookup, an
      unknown id a 404, a stock below the quantity a 400; otherwise the stock drops by
      the quantity and stays non-negative. */
  function DeductGoodStep(db: Db, itemId: int, quantity: Option<int>): (r: Step)
    ensures r.resp.code in {200, 400, 404}
    ensures r.resp.code != 200 ==> r.db == db
    ensures MissingNumber(quantity) || quantity.value <= 0 ==> r.resp == Response(400, "Invalid quantity")
    ensures !MissingNumber(quantity) && quantity.value > 0 && ItemById(db.items, itemId).None? ==>
              r.resp == Response(404, "Good not found")
    ensures !MissingNumber(quantity) && quantity.value > 0 && ItemById(db.items, itemId).Some?
            && db.items[ItemById(db.items, itemId).value].stockCount < quantity.value ==>
              r.resp == Response(400, "Insufficient stock")
    ensures r.resp.code == 200 <==>
              && !MissingNumber(quantity) && quantity.value > 0
              && (exists k :: 0 <= k < |db.items| && db.items[k].id == itemId)
              && db.items[ItemById(db.items, itemId).value].stockCount >= quantity.value
    ensures r.resp.code == 200 ==>
              var i := ItemById(db.items, itemId).value;
              && r.resp == Response(200, NatToString(quantity.value) + " items deducted from stock")
              && r.db == db.(items := db.items[i := db.items[i].(stockCount := db.items[i].stockCount - quantity.value)])
              && r.db.items[i].stockCount >= 0
    ensures WellFormed(db) ==> WellFormed(r.db)
  {
    if MissingNumber(quantity) || quantity.value <= 0 then Step(Response(400, "Invalid quantity"), db)
    else
      match ItemById(db.items, itemId)
      case None => Step(Response(404, "Good not found"), db)
      case Some(i) =>
        var good := db.items[i];
        if good.stockCount < quantity.value then Step(Response(400, "Insufficient stock"), db)
        else
          var after := good.(stockCount := good.stockCount - quantity.value);
          DistinctReplace(db.items, i, after, ItemIdOf);
          Step(Response(200, NatToString(quantity.value) + " items deducted from stock"),
               db.(items := db.items[i := after]))
  }

  method DeductGood(shop: Shop, itemId: int, quantity: Option<int>) returns (resp: Response)
    modifies shop
    ensures Step(resp, shop.Snapshot()) == DeductGoodStep(old(shop.Snapshot()), itemId, quantity)
  {
    if MissingNumber(quantity) || quantity.value <= 0 {
      return Response(400, "Invalid quantity");
    }
    var ii := ItemById(shop.items, itemId);
    if ii.None? {
      return Response(404, "Good not found");
    }
    var good := shop.items[ii.value];
    if good.stockCount < quantity.value {
      return Response(400, "Insufficient stock");
    }
    shop.items := shop.items[ii.value := good.(stockCount := good.stockCount - quantity.value)];
    resp := Response(200, NatToString(quantity.value) + " items deducted from stock");
  }

  /** Two deductions in a row take the same stock as one deduction of their sum. */
  lemma DeductTwice(db: Db, itemId: int, a: int, b: int)
    requires DeductGoodStep(db, itemId, Some(a)).resp.code == 200
    requires DeductGoodStep(DeductGoodStep(db, itemId, Some(a)).db, itemId, Some(b)).resp.code == 200
    ensures DeductGoodStep(DeductGoodStep(db, itemId, Some(a)).db, itemId, Some(b)).db
            == DeductGoodStep(db, itemId, Some(a + b)).db
  {
    var i := ItemById(db.items, itemId).value;
    var once := DeductGoodStep(db, itemId, Some(a)).db;
    FirstIndexIs(once.items, (it: Item) => it.id == itemId, i);
  }

  // The inventory tests: the laptop the tests add to an empty store

  function TestGood(): GoodForm {
    GoodForm(Some("MacBook Pro 16\""), Some("Electronics"), Some(249999),
             Some("High-performance laptop with M1 Max chip."), Some(10))
  }

  function EmptyStore(): Db { Db([], [], [], [], [], []) }

  /** The test's laptop is added to an empty store as good 1. */
  lemma AddTestGood(now: int)
    ensures AddGoodStep(EmptyStore(), TestGood(), now)
            == Step(Response(201, "Good added to inventory successfully!"),
                    EmptyStore().(items := [NewGood([], TestGood(), now)]))
    ensures NewGood([], TestGood(), now).id == 1
  {
    FirstMissingGoodFieldNone(TestGood());
  }

  lemma InventoryTestLookup(now: int)
    ensures var items := [NewGood([], TestGood(), now)];
            GetGood(items, 1).Ok? && GetGood(items, 1).value.name == "MacBook Pro 16\""
  {
  }

  /** Deducting two of the ten leaves eight. */
  lemma InventoryTestDeduct(now: int)
    ensures var added := EmptyStore().(items := [NewGood([], TestGood(), now)]);
            var r := DeductGoodStep(added, 1, Some(2));
            r.resp == Response(200, "2 items deducted from stock") && r.db.items[0].stockCount == 8
  {
    var good := NewGood([], TestGood(), now);
    assert good.id == 1 && good.stockCount == 10;
    DeductFromOneGood(good, 2);
    assert NatToString(2) == "2";
  }

  /** Deducting from a store that holds one good. */
  lemma DeductFromOneGood(good: Item, q: int)
    requires 0 < q <= good.stockCount
    ensures var r := DeductGoodStep(EmptyStore().(items := [good]), good.id, Some(q));
            r.resp == Response(200, NatToString(q) + " items deducted from stock")
            && r.db.items[0].stockCount == good.stockCount - q
  {
    FirstIndexIs([good], (it: Item) => it.id == good.id, 0);
  }

  /** The update writes the new price. */
  lemma InventoryTestUpdate(now: int)
    ensures var added := EmptyStore().(items := [NewGood([], TestGood(), now)]);
            var r := UpdateGoodStep(added, 1, [Patch("PricePerItem", Number(239999))]);
            r.resp.code == 200 && r.db.items[0].pricePerItem == 239999
  {
    var data := [Patch("PricePerItem", Number(239999))];
    assert data[..0] == [];
  }
}
