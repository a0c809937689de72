/** The inventory service behind a token check: the same add, update and deduction,
    and a lookup by primary key, each run only after the request's token passes. */
module AuthInventory {
  import opened Seqs
  import opened Store
  import opened Attributes
  import opened Inventory

  /** What the token verifier answers for a token it is given: the signed-token
      library itself is outside the model, so its answer is an input. */
  datatype Verdict = Valid(userId: int) | Invalid(error: string)

  /** The gate in front of every handler: no token (or an empty one) is a 401 "Token
      is missing", a token the verifier rejects is a 401 with the verifier's error;
      `None` lets the request through. */
  function AuthGate(token: Option<string>, verdict: Verdict): (r: Option<Response>)
    ensures r.Some? ==> r.value.code == 401
    ensures r.None? <==> !MissingText(token) && verdict.Valid?
    ensures MissingText(token) ==> r == Some(Response(401, "Token is missing"))
    ensures !MissingText(token) && verdict.Invalid? ==> r == Some(Response(401, verdict.error))
  {
    if MissingText(token) then Some(Response(401, "Token is missing"))
    else if verdict.Invalid? then Some(Response(401, verdict.error))
    else None
  }

  /** A gated handler: the gate's 401 with the store unchanged, or the open handler's step. */
  function Gated(db: Db, token: Option<string>, verdict: Verdict, open: Step): (r: Step)
    ensures AuthGate(token, verdict).Some? ==> r.resp == AuthGate(token, verdict).value && r.db == db
    ensures AuthGate(token, verdict).None? ==> r == open
  {
    match AuthGate(token, verdict)
    case Some(denied) => Step(denied, db)
    case None => open
  }

  function AuthAddGoodStep(db: Db, token: Option<string>, verdict: Verdict, form: GoodForm, now: int): (r: Step)
    ensures AuthGate(token, verdict).Some? ==> r.resp == AuthGate(token, verdict).value && r.db == db
    ensures AuthGate(token, verdict).None? ==> r == AddGoodStep(db, form, now)
    ensures WellFormed(db) ==> WellFormed(r.db)
  {
    Gated(db, token, verdict, AddGoodStep(db, form, now))
  }

  function AuthUpdateGoodStep(db: Db, token: Option<string>, verdict: Verdict, itemId: int, data: seq<Patch>): (r: Step)
    ensures AuthGate(token, verdict).Some? ==> r.resp == AuthGate(token, verdict).value && r.db == db
    ensures AuthGate(token, verdict).None? ==> r == UpdateGoodStep(db, itemId, data)
    ensures WellFormed(db) ==> WellFormed(r.db)
  {
    Gated(db, token, verdict, UpdateGoodStep(db, itemId, data))
  }

  function AuthDeductGoodStep(db: Db, token: Option<string>, verdict: Verdict, itemId: int, quantity: Option<int>): (r: Step)
    ensures AuthGate(token, verdict).Some? ==> r.resp == AuthGate(token, verdict).value && r.db == db
    ensures AuthGate(token, verdict).None? ==> r == DeductGoodStep(db, itemId, quantity)
    ensures WellFormed(db) ==> WellFormed(r.db)
  {
    Gated(db, token, verdict, DeductGoodStep(db, itemId, quantity))
  }

  /** What the gated lookup shows of a good: the inventory view without the id. */
  datatype GoodInfo = GoodInfo(name: string, category: string, pricePerItem: int, description: string, stockCount: int)

  function GoodInfoOf(it: Item): GoodInfo {
    GoodInfo(it.name, it.category, it.pricePerItem, it.description, it.stockCount)
  }

  /** The gated lookup by primary key: 401 from the gate, 404 for an unknown id,
      otherwise the good's fields without its id. */
  function AuthGetGood(items: seq<Item>, token: Option<string>, verdict: Verdict, itemId: int): (r: Reply<GoodInfo>)
    ensures AuthGate(token, verdict).Some? ==> r.Err? && r.resp == AuthGate(token, verdict).value
    ensures AuthGate(token, verdict).None? ==>
              && (r.Err? <==> forall k :: 0 <= k < |items| ==> items[k].id != itemId)
              && (r.Err? ==> r.resp == Response(404, "Good not found"))
              && (r.Ok? ==> exists k :: 0 <= k < |items| && items[k].id == itemId && r.value == GoodInfoOf(items[k]))
  {
    match AuthGate(token, verdict)
    case Some(denied) => Err(denied)
    case None =>
      match ItemById(items, itemId)
      case None => Err(Response(404, "Good not found"))
      case Some(k) => Ok(GoodInfoOf(items[k]))
  }

  /** Past the gate, the lookup shows what the open lookup shows, less the id. */
  lemma AuthGetGoodAgrees(items: seq<Item>, token: Option<string>, verdict: Verdict, itemId: int)
    requires AuthGate(token, verdict).None?
    ensures AuthGetGood(items, token, verdict, itemId).Ok? <==> GetGood(items, itemId).Ok?
    ensures GetGood(items, itemId).Ok? ==>
              var v := GetGood(items, itemId).value;
              AuthGetGood(items, token, verdict, itemId).value
              == GoodInfo(v.name, v.category, v.pricePerItem, v.description, v.stockCount)
  {
  }

  method AuthAddGood(shop: Shop, token: Option<string>, verdict: Verdict, form: GoodForm, now: int) returns (resp: Response)
    modifies shop
    ensures Step(resp, shop.Snapshot()) == AuthAddGoodStep(old(shop.Snapshot()), token, verdict, form, now)
  {
    var denied := AuthGate(token, verdict);
    if denied.Some? {
      return denied.value;
    }
    resp := AddGood(shop, form, now);
  }

  method AuthUpdateGood(shop: Shop, token: Option<string>, verdict: Verdict, itemId: int, data: seq<Patch>)
    returns (resp: Response)
    modifies shop
    ensures Step(resp, shop.Snapshot()) == AuthUpdateGoodStep(old(shop.Snapshot()), token, verdict, itemId, data)
  {
    var denied := AuthGate(token, verdict);
    if denied.Some? {
      return denied.value;
    }
    resp := UpdateGood(shop, itemId, data);
  }

  method AuthDeductGood(shop: Shop, token: Option<string>, verdict: Verdict, itemId: int, quantity: Option<int>)
    returns (resp: Response)
    modifies shop
    ensures Step(resp, shop.Snapshot()) == AuthDeductGoodStep(old(shop.Snapshot()), token, verdict, itemId, quantity)
  {
    var denied := AuthGate(token, verdict);
    if denied.Some? {
      return denied.value;
    }
    resp := DeductGood(shop, itemId, quantity);
  }
}
