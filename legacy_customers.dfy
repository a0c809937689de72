/** The older copy of the customer service. Its lookups, update, deletion and wallet
    operations are the same code as the current service's (modelled once, in
    `Customers`); only registration differs: it has no username or password rule. */
module LegacyCustomers {
  import opened Seqs
  import opened Store
  import opened Validation
  import opened Customers

  /** Registration without validation: the first missing key, then a taken username,
      are rejected with 400; otherwise one customer with an empty wallet is added. */
  function RegisterLegacyStep(db: Db, form: RegisterForm, now: int): (r: Step)
    ensures r.resp.code in {201, 400}
    ensures r.resp.code != 201 ==> r.db == db
    ensures FirstMissingField(form).Some? ==>
              r.resp == Response(400, "Missing field: " + RequiredFields[FirstMissingField(form).value])
    ensures Complete(form) && !UsernameFree(db.customers, form.username.value) ==>
              r.resp == Response(400, "Username already taken")
    ensures r.resp.code == 201 <==> Complete(form) && UsernameFree(db.customers, form.username.value)
    ensures r.resp.code == 201 ==> r.resp.text == "Customer registered successfully!"
    ensures r.resp.code == 201 ==> r.db == db.(customers := db.customers + [NewCustomer(db.customers, form, now)])
    ensures WellFormed(db) ==> WellFormed(r.db)
  {
    FirstMissingFieldNone(form);
    match FirstMissingField(form)
    case Some(i) => Step(Response(400, "Missing field: " + RequiredFields[i]), db)
    case None => AddCustomerStep(db, form, now)
  }

  method RegisterLegacy(shop: Shop, form: RegisterForm, now: int) returns (resp: Response)
    modifies shop
    ensures Step(resp, shop.Snapshot()) == RegisterLegacyStep(old(shop.Snapshot()), form, now)
  {
    FirstMissingFieldNone(form);
    for i := 0 to |RequiredFields|
      invariant forall k :: 0 <= k < i ==> Has(form, RequiredFields[k])
    {
      if !Has(form, RequiredFields[i]) {
        FirstIndexIs(RequiredFields, Lacks(form), i);
        return Response(400, "Missing field: " + RequiredFields[i]);
      }
    }
    resp := AddCustomer(shop, form, now);
  }

  /** The two registrations agree on every body whose username and password pass the
      rules, and on every body that lacks a key; what the current one accepts, the old
      one accepts with the same store. */
  lemma RegisterAgreesWithLegacy(db: Db, form: RegisterForm, now: int)
    ensures !Complete(form) ==> RegisterStep(db, form, now) == RegisterLegacyStep(db, form, now)
    ensures Complete(form) && ValidateUsername(form.username.value) && ValidatePassword(form.passwordHash.value) ==>
              RegisterStep(db, form, now) == RegisterLegacyStep(db, form, now)
    ensures RegisterStep(db, form, now).resp.code == 201 ==> RegisterStep(db, form, now) == RegisterLegacyStep(db, form, now)
  {
    FirstMissingFieldNone(form);
  }

  /** The old registration accepts the customer of the registration test on an empty store. */
  lemma LegacyAcceptsTestForm(now: int)
    ensures RegisterLegacyStep(Db([], [], [], [], [], []), TestForm(), now).resp
            == Response(201, "Customer registered successfully!")
  {
    FirstMissingFieldNone(TestForm());
  }
}
