/** The customer service: registration, the credential check, lookups, the
    field-by-field update, deletion, the wallet and the wishlist. */
module Customers {
  import opened Seqs
  import opened Store
  import opened Attributes
  import opened Validation

  // Lookups by username

  /** Customer `k` is the first with username `u`: the row `filter_by(Username=u).first()` finds. */
  ghost predicate FirstWithUsername(cs: seq<Customer>, u: string, k: int) {
    0 <= k < |cs| && cs[k].username == u && forall j :: 0 <= j < k ==> cs[j].username != u
  }

  predicate UsernameFree(cs: seq<Customer>, u: string) {
    forall k :: 0 <= k < |cs| ==> cs[k].username != u
  }

  /** What the customer listings show: every column but the password and the creation time. */
  datatype CustomerView = CustomerView(
    id: int, fullName: string, username: string, age: int,
    address: string, gender: string, maritalStatus: string, walletBalance: int)

  function ViewOf(c: Customer): CustomerView {
    CustomerView(c.id, c.fullName, c.username, c.age, c.address, c.gender, c.maritalStatus, c.walletBalance)
  }

  /** The listing never shows the password hash or the creation time. */
  lemma ViewHidesSecrets(c: Customer, hash: string, createdAt: int)
    ensures ViewOf(c.(passwordHash := hash, createdAt := createdAt)) == ViewOf(c)
    ensures ViewOf(c).id == c.id && ViewOf(c).username == c.username && ViewOf(c).walletBalance == c.walletBalance
  {
  }

  /** Every customer in table order. */
  function GetAllCustomers(cs: seq<Customer>): (r: seq<CustomerView>)
    ensures |r| == |cs|
    ensures forall k :: 0 <= k < |cs| ==> r[k] == ViewOf(cs[k])
  {
    Map(cs, ViewOf)
  }

  /** The first customer with the given username, or 404. */
  function GetCustomer(cs: seq<Customer>, username: string): (r: Reply<CustomerView>)
    ensures r.Err? <==> UsernameFree(cs, username)
    ensures r.Err? ==> r.resp == Response(404, "Customer not found")
    ensures r.Ok? ==> exists k :: FirstWithUsername(cs, username, k) && r.value == ViewOf(cs[k])
  {
    match CustomerByUsername(cs, username)
    case None => Err(Response(404, "Customer not found"))
    case Some(k) => Ok(ViewOf(cs[k]))
  }

  /** What the lookup by username returns is the entry of the full listing at the same row. */
  lemma GetCustomerIsListed(cs: seq<Customer>, username: string)
    requires GetCustomer(cs, username).Ok?
    ensures GetCustomer(cs, username).value in GetAllCustomers(cs)
  {
    var k := CustomerByUsername(cs, username).value;
    assert GetAllCustomers(cs)[k] == GetCustomer(cs, username).value;
  }

  // Registration

  /** The registration body; `None` is a key the body does not have. */
  datatype RegisterForm = RegisterForm(
    fullName: Option<string>, username: Option<string>, passwordHash: Option<string>,
    age: Option<int>, address: Option<string>, gender: Option<string>, maritalStatus: Option<string>)

  /** The keys registration demands, in the order it checks them. */
  const RequiredFields: seq<string> := ["FullName", "Username", "PasswordHash", "Age", "Address", "Gender", "MaritalStatus"]

  /** `field in data` */
  predicate Has(form: RegisterForm, field: string) {
    if field == "FullName" then form.fullName.Some?
    else if field == "Username" then form.username.Some?
    else if field == "PasswordHash" then form.passwordHash.Some?
    else if field == "Age" then form.age.Some?
    else if field == "Address" then form.address.Some?
    else if field == "Gender" then form.gender.Some?
    else if field == "MaritalStatus" then form.maritalStatus.Some?
    else false
  }

  function Lacks(form: RegisterForm): string -> bool {
    (field: string) => !Has(form, field)
  }

  /** Index in `RequiredFields` of the first key the body lacks. */
  function FirstMissingField(form: RegisterForm): Option<nat> {
    FirstIndex(RequiredFields, Lacks(form))
  }

  predicate Complete(form: RegisterForm) {
    && form.fullName.Some? && form.username.Some? && form.passwordHash.Some? && form.age.Some?
    && form.address.Some? && form.gender.Some? && form.maritalStatus.Some?
  }

  /** A body lacks no required key exactly when it has all seven. */
  lemma FirstMissingFieldNone(form: RegisterForm)
    ensures FirstMissingField(form).None? <==> Complete(form)
  {
    if Complete(form) {
      assert forall k :: 0 <= k < |RequiredFields| ==> Has(form, RequiredFields[k]);
    } else {
      var field :=
        if form.fullName.None? then 0 else if form.username.None? then 1
        else if form.passwordHash.None? then 2 else if form.age.None? then 3
        else if form.address.None? then 4 else if form.gender.None? then 5 else 6;
      assert Lacks(form)(RequiredFields[field]);
    }
  }

  /** The row a complete body creates: the next id, the body's fields, an empty wallet. */
  function NewCustomer(cs: seq<Customer>, form: RegisterForm, now: int): (c: Customer)
    requires Complete(form)
    ensures c.walletBalance == 0 && c.createdAt == now
    ensures c.username == form.username.value && c.passwordHash == form.passwordHash.value
    ensures forall k :: 0 <= k < |cs| ==> cs[k].id < c.id
  {
    Customer(NewCustomerId(cs), form.fullName.value, form.username.value, form.passwordHash.value,
             form.age.value, form.address.value, form.gender.value, form.maritalStatus.value, 0, now)
  }

  /** Registration: the first missing key, then the username rule, then the password
      rule, then a taken username are rejected with 400; otherwise one customer with an
      empty wallet is added. */
  function RegisterStep(db: Db, form: RegisterForm, now: int): (r: Step)
    ensures r.resp.code in {201, 400}
    ensures r.resp.code != 201 ==> r.db == db
    ensures FirstMissingField(form).Some? ==>
              r.resp == Response(400, "Missing field: " + RequiredFields[FirstMissingField(form).value])
    ensures Complete(form) && !ValidateUsername(form.username.value) ==> r.resp == Response(400, "Invalid username")
    ensures Complete(form) && ValidateUsername(form.username.value) && !ValidatePassword(form.passwordHash.value) ==>
              r.resp == Response(400, "Invalid password")
    ensures Complete(form) && ValidateUsername(form.username.value) && ValidatePassword(form.passwordHash.value)
            && !UsernameFree(db.customers, form.username.value) ==>
              r.resp == Response(400, "Username already taken")
    ensures r.resp.code == 201 <==>
              && Complete(form) && ValidateUsername(form.username.value) && ValidatePassword(form.passwordHash.value)
              && UsernameFree(db.customers, form.username.value)
    ensures r.resp.code == 201 ==>
              && r.resp == Response(201, "Customer registered successfully!")
              && r.db == db.(customers := db.customers + [NewCustomer(db.customers, form, now)])
    ensures WellFormed(db) ==> WellFormed(r.db)
  {
    FirstMissingFieldNone(form);
    match FirstMissingField(form)
    case Some(i) => Step(Response(400, "Missing field: " + RequiredFields[i]), db)
    case None =>
      if !ValidateUsername(form.username.value) then Step(Response(400, "Invalid username"), db)
      else if !ValidatePassword(form.passwordHash.value) then Step(Response(400, "Invalid password"), db)
      else AddCustomerStep(db, form, now)
  }

  /** The part registration shares with the copy that does not validate: the
      uniqueness check and the insert. */
  function AddCustomerStep(db: Db, form: RegisterForm, now: int): (r: Step)
    requires Complete(form)
    ensures r.resp.code in {201, 400}
    ensures r.resp.code != 201 ==> r.db == db && r.resp == Response(400, "Username already taken")
    ensures r.resp.code == 201 <==> UsernameFree(db.customers, form.username.value)
    ensures r.resp.code == 201 ==>
              && r.resp == Response(201, "Customer registered successfully!")
              && r.db == db.(customers := db.customers + [NewCustomer(db.customers, form, now)])
    ensures WellFormed(db) ==> WellFormed(r.db)
  {
    if CustomerByUsername(db.customers, form.username.value).Some? then
      Step(Response(400, "Username already taken"), db)
    else
      var c := NewCustomer(db.customers, form, now);
      DistinctAppend(db.customers, c, CustomerIdOf);
      DistinctAppend(db.customers, c, UsernameOf);
      Step(Response(201, "Customer registered successfully!"), db.(customers := db.customers + [c]))
  }

  method Register(shop: Shop, form: RegisterForm, now: int) returns (resp: Response)
    modifies shop
    ensures Step(resp, shop.Snapshot()) == RegisterStep(old(shop.Snapshot()), form, now)
  {
    FirstMissingFieldNone(form);
    for i := 0 to |RequiredFields|
      invariant forall k :: 0 <= k < i ==> Has(form, RequiredFields[k])
    {
      if !Has(form, RequiredFields[i]) {
        FirstIndexIs(RequiredFields, Lacks(form), i);
        return Response(400, "Missing field: " + RequiredFields[i]);
      }
    }
    if !ValidateUsername(form.username.value) {
      return Response(400, "Invalid username");
    }
    if !ValidatePassword(form.passwordHash.value) {
      return Response(400, "Invalid password");
    }
    resp := AddCustomer(shop, form, now);
  }

  method AddCustomer(shop: Shop, form: RegisterForm, now: int) returns (resp: Response)
    requires Complete(form)
    modifies shop
    ensures Step(resp, shop.Snapshot()) == AddCustomerStep(old(shop.Snapshot()), form, now)
  {
    if CustomerByUsername(shop.customers, form.username.value).Some? {
      return Response(400, "Username already taken");
    }
    shop.customers := shop.customers + [NewCustomer(shop.customers, form, now)];
    resp := Response(201, "Customer registered successfully!");
  }

  // The credential check

  /** The login check: the first customer with the username must have the given
      password hash. The signed token it issues is left out; the customer's id stands
      for it. */
  function LoginStep(cs: seq<Customer>, username: Option<string>, password: Option<string>): (r: Reply<int>)
    ensures r.Err? ==> r.resp == Response(401, "Invalid credentials")
    ensures r.Ok? <==>
              && username.Some? && password.Some?
              && exists k :: FirstWithUsername(cs, username.value, k) && cs[k].passwordHash == password.value
    ensures r.Ok? ==> exists k :: FirstWithUsername(cs, username.value, k) && cs[k].id == r.value
  {
    if username.None? || password.None? then Err(Response(401, "Invalid credentials"))
    else
      match CustomerByUsername(cs, username.value)
      case None => Err(Response(401, "Invalid credentials"))
      case Some(k) =>
        if cs[k].passwordHash != password.value then
          assert forall j :: FirstWithUsername(cs, username.value, j) ==> j == k by {
            forall j | FirstWithUsername(cs, username.value, j)
              ensures j == k
            {
              FirstIndexIs(cs, (c: Customer) => c.username == username.value, j);
            }
          }
          Err(Response(401, "Invalid credentials"))
        else Ok(cs[k].id)
  }

  /** A customer who has just registered can log in with the same username and hash. */
  lemma RegisterThenLogin(db: Db, form: RegisterForm, now: int)
    requires RegisterStep(db, form, now).resp.code == 201
    ensures var after := RegisterStep(db, form, now).db;
            LoginStep(after.customers, form.username, form.passwordHash)
            == Ok(NewCustomerId(db.customers))
  {
    var after := RegisterStep(db, form, now).db;
    var n := |db.customers|;
    FirstIndexIs(after.customers, (c: Customer) => c.username == form.username.value, n);
  }

  // The field-by-field update

  /** Another row already has the id or the username `c` would get: the UNIQUE or
      primary key constraint fails when the update is committed. */
  predicate Collides(cs: seq<Customer>, i: nat, c: Customer) {
    exists k :: 0 <= k < |cs| && k != i && (cs[k].id == c.id || cs[k].username == c.username)
  }

  /** The update of customer `i` fails as a whole: a pair names a relationship or the
      DateTime column, or the patched row clashes with another row's id or username. */
  predicate UpdateCustomerFails(cs: seq<Customer>, i: nat, data: seq<Patch>)
    requires i < |cs|
  {
    CustomerPatchFails(data) || Collides(cs, i, ApplyCustomerPatch(cs[i], data))
  }

  /** The update: 404 for an unknown id; otherwise every pair of the body that names a
      column with a value of its kind is written, in order. A pair naming a relationship
      raises in `setattr`, a `CreatedAt` value and a clash with another row's id or
      username fail at commit: each is a 500 that changes nothing. */
  function UpdateCustomerStep(db: Db, customerId: int, data: seq<Patch>): (r: Step)
    ensures r.resp.code in {200, 404, 500}
    ensures r.resp.code != 200 ==> r.db == db
    ensures r.resp.code == 404 <==> forall k :: 0 <= k < |db.customers| ==> db.customers[k].id != customerId
    ensures r.resp.code == 404 ==> r.resp == Response(404, "Customer not found")
    ensures r.resp.code == 500 ==> r.resp == InternalError
    ensures CustomerById(db.customers, customerId).Some? ==>
              (r.resp.code == 200 <==> !UpdateCustomerFails(db.customers, CustomerById(db.customers, customerId).value, data))
    ensures r.resp.code == 200 ==>
              var i := CustomerById(db.customers, customerId).value;
              && r.resp == Response(200, "Customer information updated successfully!")
              && |r.db.customers| == |db.customers|
              && r.db.customers[i] == ApplyCustomerPatch(db.customers[i], data)
              && (forall k :: 0 <= k < |db.customers| && k != i ==> r.db.customers[k] == db.customers[k])
              && r.db == db.(customers := r.db.customers)
    ensures WellFormed(db) ==> WellFormed(r.db)
  {
    match CustomerById(db.customers, customerId)
    case None => Step(Response(404, "Customer not found"), db)
    case Some(i) =>
      var c := ApplyCustomerPatch(db.customers[i], data);
      if CustomerPatchFails(data) || Collides(db.customers, i, c) then Step(InternalError, db)
      else
        DistinctUpdate(db.customers, i, c, CustomerIdOf);
        DistinctUpdate(db.customers, i, c, UsernameOf);
        Step(Response(200, "Customer information updated successfully!"), db.(customers := db.customers[i := c]))
  }

  method UpdateCustomer(shop: Shop, customerId: int, data: seq<Patch>) returns (resp: Response)
    modifies shop
    ensures Step(resp, shop.Snapshot()) == UpdateCustomerStep(old(shop.Snapshot()), customerId, data)
  {
    var ci := CustomerById(shop.customers, customerId);
    if ci.None? {
      return Response(404, "Customer not found");
    }
    var customer := shop.customers[ci.value];
    var badDate := false;
    for k := 0 to |data|
      invariant customer == ApplyCustomerPatch(shop.customers[ci.value], data[..k])
      invariant forall j :: 0 <= j < k ==> data[j].key !in CustomerRelations
      invariant badDate <==> exists j :: 0 <= j < k && CustomerKind(data[j].key) == Some(DateTimeKind)
    {
      if data[k].key in CustomerRelations {
        // assigning to a relationship collection raises
        assert BreaksCustomerUpdate(data[k]);
        return InternalError;
      }
      assert data[..k + 1][..k] == data[..k];
      badDate := badDate || CustomerKind(data[k].key) == Some(DateTimeKind);
      customer := SetCustomerAttr(customer, data[k]);
    }
    assert data[..|data|] == data;
    assert badDate <==> CustomerPatchFails(data);
    // the flush at commit rejects a non-datetime CreatedAt and a clashing key
    if badDate || Collides(shop.customers, ci.value, customer) {
      return InternalError;
    }
    shop.customers := shop.customers[ci.value := customer];
    resp := Response(200, "Customer information updated successfully!");
  }

  /** After an update that succeeds, each column holds the body's last value of the
      column's kind, or its old value when the body gives none. */
  lemma UpdateCustomerWrites(db: Db, customerId: int, data: seq<Patch>, key: string)
    requires UpdateCustomerStep(db, customerId, data).resp.code == 200
    requires CustomerKind(key).Some?
    ensures var i := CustomerById(db.customers, customerId).value;
            CustomerAttr(UpdateCustomerStep(db, customerId, data).db.customers[i], key)
            == var w := LastFit(data, key, CustomerKind(key).value);
               if w.Some? then w else CustomerAttr(db.customers[i], key)
  {
    var i := CustomerById(db.customers, customerId).value;
    CustomerPatchLastWins(db.customers[i], data, key);
  }

  /** Keys for which `hasattr` fails are ignored: the update answers and stores the
      same as the update of the body without them. */
  lemma UpdateCustomerIgnoresUnknownKeys(db: Db, customerId: int, data: seq<Patch>)
    ensures UpdateCustomerStep(db, customerId, data) == UpdateCustomerStep(db, customerId, Filter(data, IsCustomerAttribute))
  {
    CustomerPatchFailsFiltered(data);
    if CustomerById(db.customers, customerId).Some? {
      CustomerPatchSkipsUnknownKeys(db.customers[CustomerById(db.customers, customerId).value], data);
    }
  }

  /** A body naming `CreatedAt` or a relationship is refused for every known customer. */
  lemma UpdateCustomerRefusesCreatedAt(db: Db, customerId: int, v: Value, relation: string, w: Value)
    requires CustomerById(db.customers, customerId).Some?
    requires relation in CustomerRelations
    ensures UpdateCustomerStep(db, customerId, [Patch("CreatedAt", v)]) == Step(InternalError, db)
    ensures UpdateCustomerStep(db, customerId, [Patch(relation, w)]) == Step(InternalError, db)
  {
    assert BreaksCustomerUpdate([Patch("CreatedAt", v)][0]);
    assert BreaksCustomerUpdate([Patch(relation, w)][0]);
  }

  // Deletion

  /** A cart row, a sale or a review still names the customer. Their `CustomerID` is
      not nullable and none of the three relationships cascades a delete, so the ORM's
      attempt to clear the key fails at commit. */
  predicate HasDependents(db: Db, customerId: int) {
    || (exists k :: 0 <= k < |db.carts| && db.carts[k].customerId == customerId)
    || (exists k :: 0 <= k < |db.sales| && db.sales[k].customerId == customerId)
    || (exists k :: 0 <= k < |db.reviews| && db.reviews[k].customerId == customerId)
  }

  /** The wishlist rows that survive the customer's deletion: the association rows of
      a many-to-many relationship go with the customer. */
  function IsOtherWish(customerId: int): WishEntry -> bool {
    (w: WishEntry) => w.customerId != customerId
  }

  /** Deletion: 404 for an unknown id; a 500 that changes nothing while other rows
      name the customer; otherwise that customer's row and wishlist pairs, and only
      those, are removed. */
  function DeleteCustomerStep(db: Db, customerId: int): (r: Step)
    ensures r.resp.code in {200, 404, 500}
    ensures r.resp.code != 200 ==> r.db == db
    ensures r.resp.code == 404 <==> forall k :: 0 <= k < |db.customers| ==> db.customers[k].id != customerId
    ensures r.resp.code == 404 ==> r.resp == Response(404, "Customer not found")
    ensures r.resp.code == 500 ==> r.resp == InternalError
    ensures r.resp.code == 200 <==>
              (exists k :: 0 <= k < |db.customers| && db.customers[k].id == customerId) && !HasDependents(db, customerId)
    ensures r.resp.code == 200 ==>
              var i := CustomerById(db.customers, customerId).value;
              && r.resp.text == "Customer deleted successfully!"
              && multiset(r.db.customers) == multiset(db.customers) - multiset{db.customers[i]}
              && |r.db.customers| == |db.customers| - 1
              && r.db == db.(customers := r.db.customers, wishlist := r.db.wishlist)
              && (forall w :: w in r.db.wishlist <==> w in db.wishlist && w.customerId != customerId)
              && IsSubsequence(r.db.wishlist, db.wishlist)
              && (WellFormed(db) ==> forall k :: 0 <= k < |r.db.customers| ==> r.db.customers[k].id != customerId)
    ensures WellFormed(db) ==> WellFormed(r.db)
  {
    match CustomerById(db.customers, customerId)
    case None => Step(Response(404, "Customer not found"), db)
    case Some(i) =>
      if HasDependents(db, customerId) then Step(InternalError, db)
      else
        var rest := RemoveAt(db.customers, i);
        DistinctRemoveAt(db.customers, i, CustomerIdOf);
        DistinctRemoveAt(db.customers, i, UsernameOf);
        DistinctFilter(db.wishlist, IsOtherWish(customerId), WishPairOf);
        assert WellFormed(db) ==> forall k :: 0 <= k < |rest| ==> rest[k].id != customerId by {
          if WellFormed(db) {
            forall k | 0 <= k < |rest|
              ensures rest[k].id != customerId
            {
              if k < i {
                assert rest[k] == db.customers[k];
              } else {
                assert rest[k] == db.customers[k + 1];
                assert CustomerIdOf(db.customers[i]) != CustomerIdOf(db.customers[k + 1]);
              }
            }
          }
        }
        Step(Response(200, "Customer deleted successfully!"),
             db.(customers := rest, wishlist := Filter(db.wishlist, IsOtherWish(customerId))))
  }

  /** A customer with a recorded sale cannot be deleted: the request is a 500 and
      the store is kept as it was. */
  lemma DeleteRefusedAfterSale(db: Db, customerId: int, k: nat)
    requires CustomerById(db.customers, customerId).Some?
    requires k < |db.sales| && db.sales[k].customerId == customerId
    ensures DeleteCustomerStep(db, customerId) == Step(InternalError, db)
  {
    assert HasDependents(db, customerId);
  }

  /** After a deletion no row of any table names the deleted customer. */
  lemma DeleteLeavesNoReference(db: Db, customerId: int)
    requires WellFormed(db)
    requires CustomerById(db.customers, customerId).Some? && !HasDependents(db, customerId)
    ensures var after := DeleteCustomerStep(db, customerId).db;
            && CustomerById(after.customers, customerId).None?
            && (forall k :: 0 <= k < |after.wishlist| ==> after.wishlist[k].customerId != customerId)
            && (forall k :: 0 <= k < |after.carts| ==> after.carts[k].customerId != customerId)
            && (forall k :: 0 <= k < |after.sales| ==> after.sales[k].customerId != customerId)
            && (forall k :: 0 <= k < |after.reviews| ==> after.reviews[k].customerId != customerId)
  {
    var after := DeleteCustomerStep(db, customerId).db;
    assert forall k :: 0 <= k < |after.wishlist| ==> after.wishlist[k] in after.wishlist;
  }

  /** After a deletion the deleted customer's username is free, so a lookup by it is a 404. */
  lemma DeleteThenGetCustomer(db: Db, customerId: int)
    requires WellFormed(db)
    requires CustomerById(db.customers, customerId).Some? && !HasDependents(db, customerId)
    ensures var gone := db.customers[CustomerById(db.customers, customerId).value];
            GetCustomer(DeleteCustomerStep(db, customerId).db.customers, gone.username)
            == Err(Response(404, "Customer not found"))
  {
    var i := CustomerById(db.customers, customerId).value;
    var rest := RemoveAt(db.customers, i);
    assert DeleteCustomerStep(db, customerId).db.customers == rest;
    forall k | 0 <= k < |rest|
      ensures rest[k].username != db.customers[i].username
    {
      if k < i {
        assert UsernameOf(db.customers[k]) != UsernameOf(db.customers[i]);
      } else {
        assert rest[k] == db.customers[k + 1];
        assert UsernameOf(db.customers[i]) != UsernameOf(db.customers[k + 1]);
      }
    }
  }

  method DeleteCustomer(shop: Shop, customerId: int) returns (resp: Response)
    modifies shop
    ensures Step(resp, shop.Snapshot()) == DeleteCustomerStep(old(shop.Snapshot()), customerId)
  {
    var ci := CustomerById(shop.customers, customerId);
    if ci.None? {
      return Response(404, "Customer not found");
    }
    if HasDependents(shop.Snapshot(), customerId) {
      return InternalError;
    }
    shop.customers := RemoveAt(shop.customers, ci.value);
    shop.wishlist := Filter(shop.wishlist, IsOtherWish(customerId));
    resp := Response(200, "Customer deleted successfully!");
  }

  // The wallet

  /** `not amount or amount <= 0` */
  predicate InvalidAmount(amount: Option<int>) {
    MissingNumber(amount) || amount.value <= 0
  }

  /** The table with customer `i`'s wallet moved by `delta`. */
  function MoveWallet(cs: seq<Customer>, i: nat, delta: int): (r: seq<Customer>)
    requires i < |cs|
    ensures |r| == |cs| && r[i] == cs[i].(walletBalance := cs[i].walletBalance + delta)
    ensures forall k :: 0 <= k < |cs| && k != i ==> r[k] == cs[k]
  {
    cs[i := cs[i].(walletBalance := cs[i].walletBalance + delta)]
  }

  /** Moving a wallet changes no id and no username. */
  lemma MoveWalletKeepsUnique(cs: seq<Customer>, i: nat, delta: int)
    requires i < |cs|
    ensures UniqueCustomers(cs) ==> UniqueCustomers(MoveWallet(cs, i, delta))
  {
    if UniqueCustomers(cs) {
      DistinctUpdate(cs, i, cs[i].(walletBalance := cs[i].walletBalance + delta), CustomerIdOf);
      DistinctUpdate(cs, i, cs[i].(walletBalance := cs[i].walletBalance + delta), UsernameOf);
    }
  }

  /** Charging: an invalid amount is a 400 before any lookup, an unknown id a 404;
      otherwise the amount is added to that wallet and nothing else changes. */
  function ChargeWalletStep(db: Db, customerId: int, amount: Option<int>): (r: Step)
    ensures r.resp.code in {200, 400, 404}
    ensures r.resp.code != 200 ==> r.db == db
    ensures InvalidAmount(amount) ==> r.resp == Response(400, "Invalid amount")
    ensures !InvalidAmount(amount) && CustomerById(db.customers, customerId).None? ==>
              r.resp == Response(404, "Customer not found")
    ensures r.resp.code == 200 <==>
              !InvalidAmount(amount) && exists k :: 0 <= k < |db.customers| && db.customers[k].id == customerId
    ensures r.resp.code == 200 ==>
              && r.resp == Response(200, "Wallet charged successfully!")
              && r.db == db.(customers := MoveWallet(db.customers, CustomerById(db.customers, customerId).value, amount.value))
    ensures WellFormed(db) ==> WellFormed(r.db)
  {
    if InvalidAmount(amount) then Step(Response(400, "Invalid amount"), db)
    else
      match CustomerById(db.customers, customerId)
      case None => Step(Response(404, "Customer not found"), db)
      case Some(i) =>
        MoveWalletKeepsUnique(db.customers, i, amount.value);
        Step(Response(200, "Wallet charged successfully!"), db.(customers := MoveWallet(db.customers, i, amount.value)))
  }

  /** Deducting: as charging, and a balance below the amount is a 400 with no change;
      a deduction that succeeds leaves the balance non-negative. */
  function DeductWalletStep(db: Db, customerId: int, amount: Option<int>): (r: Step)
    ensures r.resp.code in {200, 400, 404}
    ensures r.resp.code != 200 ==> r.db == db
    ensures InvalidAmount(amount) ==> r.resp == Response(400, "Invalid amount")
    ensures !InvalidAmount(amount) && CustomerById(db.customers, customerId).None? ==>
              r.resp == Response(404, "Customer not found")
    ensures !InvalidAmount(amount) && CustomerById(db.customers, customerId).Some?
            && db.customers[CustomerById(db.customers, customerId).value].walletBalance < amount.value ==>
              r.resp == Response(400, "Insufficient funds")
    ensures r.resp.code == 200 <==>
              && !InvalidAmount(amount)
              && (exists k :: 0 <= k < |db.customers| && db.customers[k].id == customerId)
              && db.customers[CustomerById(db.customers, customerId).value].walletBalance >= amount.value
    ensures r.resp.code == 200 ==>
              var i := CustomerById(db.customers, customerId).value;
              && r.resp == Response(200, "Wallet deducted successfully!")
              && r.db == db.(customers := MoveWallet(db.customers, i, -amount.value))
              && r.db.customers[i].walletBalance >= 0
    ensures WellFormed(db) ==> WellFormed(r.db)
  {
    if InvalidAmount(amount) then Step(Response(400, "Invalid amount"), db)
    else
      match CustomerById(db.customers, customerId)
      case None => Step(Response(404, "Customer not found"), db)
      case Some(i) =>
        if db.customers[i].walletBalance < amount.value then Step(Response(400, "Insufficient funds"), db)
        else
          MoveWalletKeepsUnique(db.customers, i, -amount.value);
          Step(Response(200, "Wallet deducted successfully!"), db.(customers := MoveWallet(db.customers, i, -amount.value)))
  }

  method ChargeWallet(shop: Shop, customerId: int, amount: Option<int>) returns (resp: Response)
    modifies shop
    ensures Step(resp, shop.Snapshot()) == ChargeWalletStep(old(shop.Snapshot()), customerId, amount)
  {
    if MissingNumber(amount) || amount.value <= 0 {
      return Response(400, "Invalid amount");
    }
    var ci := CustomerById(shop.customers, customerId);
    if ci.None? {
      return Response(404, "Customer not found");
    }
    var customer := shop.customers[ci.value];
    shop.customers := shop.customers[ci.value := customer.(walletBalance := customer.walletBalance + amount.value)];
    resp := Response(200, "Wallet charged successfully!");
  }

  method DeductWallet(shop: Shop, customerId: int, amount: Option<int>) returns (resp: Response)
    modifies shop
    ensures Step(resp, shop.Snapshot()) == DeductWalletStep(old(shop.Snapshot()), customerId, amount)
  {
    if MissingNumber(amount) || amount.value <= 0 {
      return Response(400, "Invalid amount");
    }
    var ci := CustomerById(shop.customers, customerId);
    if ci.None? {
      return Response(404, "Customer not found");
    }
    var customer := shop.customers[ci.value];
    if customer.walletBalance < amount.value {
      return Response(400, "Insufficient funds");
    }
    shop.customers := shop.customers[ci.value := customer.(walletBalance := customer.walletBalance - amount.value)];
    resp := Response(200, "Wallet deducted successfully!");
  }

  /** Deducting what was just charged restores the store, provided the wallet was not
      already overdrawn. */
  lemma ChargeThenDeduct(db: Db, customerId: int, amount: int)
    requires ChargeWalletStep(db, customerId, Some(amount)).resp.code == 200
    requires db.customers[CustomerById(db.customers, customerId).value].walletBalance >= 0
    ensures var charged := ChargeWalletStep(db, customerId, Some(amount)).db;
            DeductWalletStep(charged, customerId, Some(amount)) == Step(Response(200, "Wallet deducted successfully!"), db)
  {
    var i := CustomerById(db.customers, customerId).value;
    var charged := ChargeWalletStep(db, customerId, Some(amount)).db;
    assert CustomerById(charged.customers, customerId) == Some(i) by {
      FirstIndexIs(charged.customers, (c: Customer) => c.id == customerId, i);
    }
    assert MoveWallet(charged.customers, i, -amount) == db.customers;
  }

  /** Charging adds the amount to the money held in all wallets. */
  lemma ChargeAddsToWallets(db: Db, customerId: int, amount: Option<int>)
    requires ChargeWalletStep(db, customerId, amount).resp.code == 200
    ensures SumOf(ChargeWalletStep(db, customerId, amount).db.customers, WalletBalanceOf)
            == SumOf(db.customers, WalletBalanceOf) + amount.value
  {
    var i := CustomerById(db.customers, customerId).value;
    var c := db.customers[i];
    SumUpdate(db.customers, i, c.(walletBalance := c.walletBalance + amount.value), WalletBalanceOf);
  }

  function WalletBalanceOf(c: Customer): int { c.walletBalance }

  // The wishlist

  /** Adding to the wishlist: a missing item id is a 400, an unknown customer or item a
      404, a pair already listed a 400; otherwise the pair is appended. */
  function AddToWishlistStep(db: Db, customerId: int, itemId: Option<int>): (r: Step)
    ensures r.resp.code in {201, 400, 404}
    ensures r.resp.code != 201 ==> r.db == db
    ensures MissingNumber(itemId) ==> r.resp == Response(400, "Missing item_id")
    ensures !MissingNumber(itemId) && (CustomerById(db.customers, customerId).None? || ItemById(db.items, itemId.value).None?) ==>
              r.resp == Response(404, "Customer or Item not found")
    ensures !MissingNumber(itemId) && CustomerById(db.customers, customerId).Some? && ItemById(db.items, itemId.value).Some?
            && WishEntry(customerId, itemId.value) in db.wishlist ==>
              r.resp == Response(400, "Item already in wishlist")
    ensures r.resp.code == 201 <==>
              && !MissingNumber(itemId)
              && (exists k :: 0 <= k < |db.customers| && db.customers[k].id == customerId)
              && (exists k :: 0 <= k < |db.items| && db.items[k].id == itemId.value)
              && WishEntry(customerId, itemId.value) !in db.wishlist
    ensures r.resp.code == 201 ==>
              && r.resp == Response(201, "Item added to wishlist")
              && r.db == db.(wishlist := db.wishlist + [WishEntry(customerId, itemId.value)])
    ensures WellFormed(db) ==> WellFormed(r.db)
  {
    if MissingNumber(itemId) then Step(Response(400, "Missing item_id"), db)
    else if CustomerById(db.customers, customerId).None? || ItemById(db.items, itemId.value).None? then
      Step(Response(404, "Customer or Item not found"), db)
    else if WishEntryFor(db.wishlist, customerId, itemId.value).Some? then
      Step(Response(400, "Item already in wishlist"), db)
    else
      var w := WishEntry(customerId, itemId.value);
      assert forall k :: 0 <= k < |db.wishlist| ==> db.wishlist[k] != w;
      DistinctAppend(db.wishlist, w, WishPairOf);
      Step(Response(201, "Item added to wishlist"), db.(wishlist := db.wishlist + [w]))
  }

  /** Removing from the wishlist: 404 when the pair is not listed; otherwise that one
      entry goes and the rest stay. */
  function RemoveFromWishlistStep(db: Db, customerId: int, itemId: int): (r: Step)
    ensures r.resp.code in {200, 404}
    ensures r.resp.code != 200 ==> r.db == db && r.resp == Response(404, "Item not found in wishlist")
    ensures r.resp.code == 200 <==> WishEntry(customerId, itemId) in db.wishlist
    ensures r.resp.code == 200 ==>
              && multiset(r.db.wishlist) == multiset(db.wishlist) - multiset{WishEntry(customerId, itemId)}
              && r.db == db.(wishlist := r.db.wishlist)
              && (WellFormed(db) ==> WishEntry(customerId, itemId) !in r.db.wishlist)
    ensures WellFormed(db) ==> WellFormed(r.db)
  {
    match WishEntryFor(db.wishlist, customerId, itemId)
    case None => Step(Response(404, "Item not found in wishlist"), db)
    case Some(i) =>
      var rest := RemoveAt(db.wishlist, i);
      DistinctRemoveAt(db.wishlist, i, WishPairOf);
      assert db.wishlist[i] == WishEntry(customerId, itemId);
      assert WellFormed(db) ==> WishEntry(customerId, itemId) !in rest by {
        if WellFormed(db) {
          forall k | 0 <= k < |rest|
            ensures rest[k] != db.wishlist[i]
          {
            if k < i {
              assert WishPairOf(db.wishlist[k]) != WishPairOf(db.wishlist[i]);
            } else {
              assert rest[k] == db.wishlist[k + 1];
              assert WishPairOf(db.wishlist[i]) != WishPairOf(db.wishlist[k + 1]);
            }
          }
        }
      }
      Step(Response(200, "Item removed from wishlist"), db.(wishlist := rest))
  }

  method AddToWishlist(shop: Shop, customerId: int, itemId: Option<int>) returns (resp: Response)
    modifies shop
    ensures Step(resp, shop.Snapshot()) == AddToWishlistStep(old(shop.Snapshot()), customerId, itemId)
  {
    if MissingNumber(itemId) {
      return Response(400, "Missing item_id");
    }
    var customer := CustomerById(shop.customers, customerId);
    var item := ItemById(shop.items, itemId.value);
    if customer.None? || item.None? {
      return Response(404, "Customer or Item not found");
    }
    if WishEntryFor(shop.wishlist, customerId, itemId.value).Some? {
      return Response(400, "Item already in wishlist");
    }
    shop.wishlist := shop.wishlist + [WishEntry(customerId, itemId.value)];
    resp := Response(201, "Item added to wishlist");
  }

  method RemoveFromWishlist(shop: Shop, customerId: int, itemId: int) returns (resp: Response)
    modifies shop
    ensures Step(resp, shop.Snapshot()) == RemoveFromWishlistStep(old(shop.Snapshot()), customerId, itemId)
  {
    var entry := WishEntryFor(shop.wishlist, customerId, itemId);
    if entry.None? {
      return Response(404, "Item not found in wishlist");
    }
    shop.wishlist := RemoveAt(shop.wishlist, entry.value);
    resp := Response(200, "Item removed from wishlist");
  }

  /** Adding the same pair twice: the second request is a 400 and changes nothing. */
  lemma AddToWishlistTwice(db: Db, customerId: int, itemId: int)
    requires AddToWishlistStep(db, customerId, Some(itemId)).resp.code == 201
    ensures var once := AddToWishlistStep(db, customerId, Some(itemId)).db;
            AddToWishlistStep(once, customerId, Some(itemId)) == Step(Response(400, "Item already in wishlist"), once)
  {
    var once := AddToWishlistStep(db, customerId, Some(itemId)).db;
    assert once.wishlist[|db.wishlist|] == WishEntry(customerId, itemId);
  }

  /** Removing a pair just added restores the wishlist. */
  lemma AddThenRemoveWishlist(db: Db, customerId: int, itemId: int)
    requires AddToWishlistStep(db, customerId, Some(itemId)).resp.code == 201
    ensures var once := AddToWishlistStep(db, customerId, Some(itemId)).db;
            RemoveFromWishlistStep(once, customerId, itemId) == Step(Response(200, "Item removed from wishlist"), db)
  {
    var once := AddToWishlistStep(db, customerId, Some(itemId)).db;
    var n := |db.wishlist|;
    FirstIndexIs(once.wishlist, (w: WishEntry) => w.customerId == customerId && w.itemId == itemId, n);
    assert RemoveAt(once.wishlist, n) == db.wishlist;
  }

  /** One entry of the wishlist view: an item id with the item's name and price. */
  datatype WishView = WishView(itemId: int, name: string, pricePerItem: int)

  /** The views of `entries`, or `None` if one names an item that is not in the table. */
  function ViewEntries(items: seq<Item>, entries: seq<WishEntry>): (r: Option<seq<WishView>>)
    ensures r.None? <==> exists k :: 0 <= k < |entries| && ItemById(items, entries[k].itemId).None?
    ensures r.Some? ==> |r.value| == |entries|
    ensures r.Some? ==> forall k :: 0 <= k < |entries| ==>
              r.value[k].itemId == entries[k].itemId
              && exists j :: 0 <= j < |items| && items[j].id == entries[k].itemId
                   && r.value[k].name == items[j].name && r.value[k].pricePerItem == items[j].pricePerItem
  {
    if |entries| == 0 then Some([])
    else
      var init, last := entries[..|entries| - 1], entries[|entries| - 1];
      assert forall k :: 0 <= k < |init| ==> init[k] == entries[k];
      match ViewEntries(items, init)
      case None => None
      case Some(views) =>
        match ItemById(items, last.itemId)
        case None => None
        case Some(j) => Some(views + [WishView(last.itemId, items[j].name, items[j].pricePerItem)])
  }

  function WishesOf(wishlist: seq<WishEntry>, customerId: int): (r: seq<WishEntry>)
    ensures forall w :: w in r <==> w in wishlist && w.customerId == customerId
  {
    Filter(wishlist, (w: WishEntry) => w.customerId == customerId)
  }

  /** `views` shows the pair of `w`. */
  ghost predicate ShowsWish(views: seq<WishView>, w: WishEntry) {
    exists v :: v in views && v.itemId == w.itemId
  }

  /** The wishlist of one customer, in table order, each entry with its item's name and
      price. An entry whose item is gone makes `entry.inventory_item.Name` raise. */
  function ViewWishlist(db: Db, customerId: int): (r: Reply<seq<WishView>>)
    ensures r.Err? <==> exists w :: w in db.wishlist && w.customerId == customerId && ItemById(db.items, w.itemId).None?
    ensures r.Err? ==> r.resp == MissingItemError
    ensures r.Ok? ==> |r.value| == |WishesOf(db.wishlist, customerId)|
    ensures r.Ok? ==> forall k :: 0 <= k < |r.value| ==> r.value[k].itemId == WishesOf(db.wishlist, customerId)[k].itemId
    ensures r.Ok? ==> forall v :: v in r.value ==>
              WishEntry(customerId, v.itemId) in db.wishlist
              && exists j :: 0 <= j < |db.items| && db.items[j].id == v.itemId && db.items[j].name == v.name
    ensures r.Ok? ==> forall w :: w in db.wishlist && w.customerId == customerId ==> ShowsWish(r.value, w)
  {
    var entries := WishesOf(db.wishlist, customerId);
    ViewWishlistFails(db, customerId);
    match ViewEntries(db.items, entries)
    case None => Err(MissingItemError)
    case Some(views) =>
      ViewsAreListed(db, customerId, entries, views);
      Ok(views)
  }

  /** The view fails exactly when an entry of the customer has lost its item. */
  lemma ViewWishlistFails(db: Db, customerId: int)
    ensures ViewEntries(db.items, WishesOf(db.wishlist, customerId)).None?
            <==> exists w :: w in db.wishlist && w.customerId == customerId && ItemById(db.items, w.itemId).None?
  {
    var entries := WishesOf(db.wishlist, customerId);
    if ViewEntries(db.items, entries).None? {
      var k :| 0 <= k < |entries| && ItemById(db.items, entries[k].itemId).None?;
      assert entries[k] in entries;
    } else {
      forall w | w in db.wishlist && w.customerId == customerId
        ensures ItemById(db.items, w.itemId).Some?
      {
        assert w in entries;
        var k :| 0 <= k < |entries| && entries[k] == w;
      }
    }
  }

  /** Each view comes from a pair of the customer, and each pair of the customer is shown. */
  lemma ViewsAreListed(db: Db, customerId: int, entries: seq<WishEntry>, views: seq<WishView>)
    requires entries == WishesOf(db.wishlist, customerId)
    requires ViewEntries(db.items, entries) == Some(views)
    ensures forall v :: v in views ==>
              WishEntry(customerId, v.itemId) in db.wishlist
              && exists j :: 0 <= j < |db.items| && db.items[j].id == v.itemId && db.items[j].name == v.name
    ensures forall w :: w in db.wishlist && w.customerId == customerId ==> ShowsWish(views, w)
  {
    forall w | w in db.wishlist && w.customerId == customerId
      ensures ShowsWish(views, w)
    {
      assert w in entries;
      var k :| 0 <= k < |entries| && entries[k] == w;
      assert views[k] in views;
    }
    forall v | v in views
      ensures WishEntry(customerId, v.itemId) in db.wishlist
      ensures exists j :: 0 <= j < |db.items| && db.items[j].id == v.itemId && db.items[j].name == v.name
    {
      var k :| 0 <= k < |views| && views[k] == v;
      var e := entries[k];
      assert e in entries;
      assert e == WishEntry(customerId, v.itemId);
    }
  }

  // The registration test: the customer the tests register

  function TestForm(): RegisterForm {
    RegisterForm(Some("Nisrine Bakri"), Some("nisrine.bakri"), Some("hashedpassword123"),
                 Some(28), Some("Beirut, Lebanon"), Some("Female"), Some("Single"))
  }

  /** The test's password hash has no special character, so this registration
      rejects it, where the copy without validation accepts it. */
  lemma TestFormPasswordRejected(db: Db, now: int)
    ensures RegisterStep(db, TestForm(), now).resp == Response(400, "Invalid password")
  {
    FirstMissingFieldNone(TestForm());
    var p := "hashedpassword123";
    assert forall i :: 0 <= i < |p| ==> !IsSpecial(p[i]);
    var u := "nisrine.bakri";
    assert ValidateUsername(u) by {
      assert forall i :: 0 <= i < |u| ==> u[i] != ' ';
    }
  }
}
