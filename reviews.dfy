/** The review service: submitting, updating, deleting and moderating reviews, the
    per-product and per-customer listings, and the detailed view of one review. */
module Reviews {
  import opened Seqs
  import opened Store

  /** The JSON body of a submission; `None` is a key the body lacks. */
  datatype ReviewForm = ReviewForm(customerId: Option<int>, itemId: Option<int>, rating: Option<int>, comment: Option<string>)

  /** The review a complete submission creates: a fresh id, an empty comment when none
      is given, not flagged, stamped `now`. */
  function NewReview(reviews: seq<Review>, form: ReviewForm, now: int): (r: Review)
    requires form.customerId.Some? && form.itemId.Some? && form.rating.Some?
    ensures r.customerId == form.customerId.value && r.itemId == form.itemId.value && r.rating == form.rating.value
    ensures r.comment == (if form.comment.Some? then form.comment.value else "")
    ensures r.isFlagged == 0 && r.createdAt == now
    ensures forall k :: 0 <= k < |reviews| ==> reviews[k].id < r.id
  {
    Review(NewReviewId(reviews), form.customerId.value, form.itemId.value, form.rating.value,
           form.comment.GetOr(""), 0, now)
  }

  /** Submitting: a body without CustomerID, ItemID or Rating raises (500); otherwise
      one review is appended. Nothing checks that the customer or the item exists. */
  function SubmitReviewStep(db: Db, form: ReviewForm, now: int): (r: Step)
    ensures r.resp.code in {201, 500}
    ensures r.resp.code != 201 ==> r.db == db && r.resp == InternalError
    ensures r.resp.code == 201 <==> form.customerId.Some? && form.itemId.Some? && form.rating.Some?
    ensures r.resp.code == 201 ==>
              && r.resp.text == "Review submitted successfully!"
              && r.db == db.(reviews := db.reviews + [NewReview(db.reviews, form, now)])
              && (forall k :: 0 <= k < |db.reviews| ==> db.reviews[k].id != NewReview(db.reviews, form, now).id)
              && r.db.reviews[|db.reviews|].comment == (if form.comment.Some? then form.comment.value else "")
    ensures WellFormed(db) ==> WellFormed(r.db)
  {
    if form.customerId.None? || form.itemId.None? || form.rating.None? then Step(InternalError, db)
    else
      var rv := NewReview(db.reviews, form, now);
      DistinctAppend(db.reviews, rv, ReviewIdOf);
      Step(Response(201, "Review submitted successfully!"), db.(reviews := db.reviews + [rv]))
  }

  /** Submits a review; on success also returns the id the new review was given. */
  method SubmitReview(shop: Shop, form: ReviewForm, now: int) returns (resp: Response, reviewId: Option<int>)
    modifies shop
    ensures Step(resp, shop.Snapshot()) == SubmitReviewStep(old(shop.Snapshot()), form, now)
    ensures reviewId == if resp.code == 201 then Some(NewReviewId(old(shop.reviews))) else None
  {
    if form.customerId.None? || form.itemId.None? || form.rating.None? {
      return InternalError, None;
    }
    var rv := NewReview(shop.reviews, form, now);
    shop.reviews := shop.reviews + [rv];
    resp, reviewId := Response(201, "Review submitted successfully!"), Some(rv.id);
  }

  /** The JSON body of an update: each key either present or absent. */
  datatype ReviewPatch = ReviewPatch(rating: Option<int>, comment: Option<string>)

  /** Updating: an unknown id is a 404; otherwise the rating and the comment take the
      body's values where it has them and keep their old ones where it does not. */
  function UpdateReviewStep(db: Db, reviewId: int, patch: ReviewPatch): (r: Step)
    ensures r.resp.code in {200, 404}
    ensures r.resp.code != 200 ==> r.db == db && r.resp == Response(404, "Review not found")
    ensures r.resp.code == 200 <==> exists k :: 0 <= k < |db.reviews| && db.reviews[k].id == reviewId
    ensures r.resp.code == 200 ==> |r.db.reviews| == |db.reviews|
    ensures r.resp.code == 200 ==>
              var i := ReviewById(db.reviews, reviewId).value;
              var old_, new_ := db.reviews[i], r.db.reviews[i];
              && r.resp.text == "Review updated successfully!"
              && r.db == db.(reviews := r.db.reviews)
              && (forall k :: 0 <= k < |db.reviews| && k != i ==> r.db.reviews[k] == db.reviews[k])
              && new_.rating == (if patch.rating.Some? then patch.rating.value else old_.rating)
              && new_.comment == (if patch.comment.Some? then patch.comment.value else old_.comment)
              && new_ == old_.(rating := new_.rating, comment := new_.comment)
    ensures WellFormed(db) ==> WellFormed(r.db)
  {
    match ReviewById(db.reviews, reviewId)
    case None => Step(Response(404, "Review not found"), db)
    case Some(i) =>
      var rv := db.reviews[i];
      var updated := rv.(rating := patch.rating.GetOr(rv.rating), comment := patch.comment.GetOr(rv.comment));
      DistinctReplace(db.reviews, i, updated, ReviewIdOf);
      Step(Response(200, "Review updated successfully!"), db.(reviews := db.reviews[i := updated]))
  }

  method UpdateReview(shop: Shop, reviewId: int, patch: ReviewPatch) returns (resp: Response)
    modifies shop
    ensures Step(resp, shop.Snapshot()) == UpdateReviewStep(old(shop.Snapshot()), reviewId, patch)
  {
    var i := ReviewById(shop.reviews, reviewId);
    if i.None? {
      return Response(404, "Review not found");
    }
    var rv := shop.reviews[i.value];
    var updated := rv.(rating := patch.rating.GetOr(rv.rating));
    updated := updated.(comment := patch.comment.GetOr(rv.comment));
    shop.reviews := shop.reviews[i.value := updated];
    resp := Response(200, "Review updated successfully!");
  }

  /** An update with an empty body changes nothing but answers 200 all the same. */
  lemma EmptyUpdateKeepsReview(db: Db, reviewId: int)
    requires UpdateReviewStep(db, reviewId, ReviewPatch(None, None)).resp.code == 200
    ensures UpdateReviewStep(db, reviewId, ReviewPatch(None, None)).db == db
  {
    var i := ReviewById(db.reviews, reviewId).value;
    assert db.reviews[i := db.reviews[i]] == db.reviews;
  }

  /** Deleting: an unknown id is a 404; otherwise only that review is removed. */
  function DeleteReviewStep(db: Db, reviewId: int): (r: Step)
    ensures r.resp.code in {200, 404}
    ensures r.resp.code != 200 ==> r.db == db && r.resp == Response(404, "Review not found")
    ensures r.resp.code == 200 <==> exists k :: 0 <= k < |db.reviews| && db.reviews[k].id == reviewId
    ensures r.resp.code == 200 ==>
              var i := ReviewById(db.reviews, reviewId).value;
              && r.resp.text == "Review deleted successfully!"
              && multiset(r.db.reviews) == multiset(db.reviews) - multiset{db.reviews[i]}
              && r.db == db.(reviews := r.db.reviews)
              && (WellFormed(db) ==> ReviewById(r.db.reviews, reviewId).None?)
    ensures WellFormed(db) ==> WellFormed(r.db)
  {
    match ReviewById(db.reviews, reviewId)
    case None => Step(Response(404, "Review not found"), db)
    case Some(i) =>
      var rest := RemoveAt(db.reviews, i);
      DistinctRemoveAt(db.reviews, i, ReviewIdOf);
      if WellFormed(db) then
        DeletedReviewIsGone(db.reviews, i);
        Step(Response(200, "Review deleted successfully!"), db.(reviews := rest))
      else
        Step(Response(200, "Review deleted successfully!"), db.(reviews := rest))
  }

  /** With distinct ids, no review with the removed one's id is left. */
  lemma DeletedReviewIsGone(reviews: seq<Review>, i: nat)
    requires i < |reviews| && Distinct(reviews, ReviewIdOf)
    ensures ReviewById(RemoveAt(reviews, i), reviews[i].id).None?
  {
    var rest := RemoveAt(reviews, i);
    forall k | 0 <= k < |rest|
      ensures rest[k].id != reviews[i].id
    {
      if k < i {
        assert ReviewIdOf(reviews[k]) != ReviewIdOf(reviews[i]);
      } else {
        assert rest[k] == reviews[k + 1];
        assert ReviewIdOf(reviews[i]) != ReviewIdOf(reviews[k + 1]);
      }
    }
  }

  method DeleteReview(shop: Shop, reviewId: int) returns (resp: Response)
    modifies shop
    ensures Step(resp, shop.Snapshot()) == DeleteReviewStep(old(shop.Snapshot()), reviewId)
  {
    var i := ReviewById(shop.reviews, reviewId);
    if i.None? {
      return Response(404, "Review not found");
    }
    shop.reviews := RemoveAt(shop.reviews, i.value);
    resp := Response(200, "Review deleted successfully!");
  }

  /** Moderating: an unknown id is a 404; a body without IsFlagged raises (500);
      otherwise the review's flag is set to the given value, which is echoed back. */
  function ModerateReviewStep(db: Db, reviewId: int, isFlagged: Option<int>): (r: Step)
    ensures r.resp.code in {200, 404, 500}
    ensures r.resp.code != 200 ==> r.db == db
    ensures ReviewById(db.reviews, reviewId).None? ==> r.resp == Response(404, "Review not found")
    ensures r.resp.code == 200 <==>
              (exists k :: 0 <= k < |db.reviews| && db.reviews[k].id == reviewId) && isFlagged.Some?
    ensures r.resp.code == 500 ==> r.resp == InternalError
    ensures r.resp.code == 200 ==>
              var i := ReviewById(db.reviews, reviewId).value;
              && r.resp.text == "Review moderation updated successfully!"
              && r.db == db.(reviews := db.reviews[i := db.reviews[i].(isFlagged := isFlagged.value)])
    ensures WellFormed(db) ==> WellFormed(r.db)
  {
    match ReviewById(db.reviews, reviewId)
    case None => Step(Response(404, "Review not found"), db)
    case Some(i) =>
      if isFlagged.None? then Step(InternalError, db)
      else
        var flagged := db.reviews[i].(isFlagged := isFlagged.value);
        DistinctReplace(db.reviews, i, flagged, ReviewIdOf);
        Step(Response(200, "Review moderation updated successfully!"), db.(reviews := db.reviews[i := flagged]))
  }

  /** Moderates a review; on success also returns the flag the review now carries. */
  method ModerateReview(shop: Shop, reviewId: int, isFlagged: Option<int>) returns (resp: Response, flag: Option<int>)
    modifies shop
    ensures Step(resp, shop.Snapshot()) == ModerateReviewStep(old(shop.Snapshot()), reviewId, isFlagged)
    ensures resp.code == 200 ==> flag == isFlagged
    ensures resp.code != 200 ==> flag.None?
  {
    var i := ReviewById(shop.reviews, reviewId);
    if i.None? {
      return Response(404, "Review not found"), None;
    }
    if isFlagged.None? {
      return InternalError, None;
    }
    shop.reviews := shop.reviews[i.value := shop.reviews[i.value].(isFlagged := isFlagged.value)];
    resp, flag := Response(200, "Review moderation updated successfully!"), Some(shop.reviews[i.value].isFlagged);
  }

  /** Moderating twice leaves the second flag: the first is overwritten. */
  lemma ModerateLastWins(db: Db, reviewId: int, f1: int, f2: int)
    requires ModerateReviewStep(db, reviewId, Some(f1)).resp.code == 200
    ensures var once := ModerateReviewStep(db, reviewId, Some(f1)).db;
            ModerateReviewStep(once, reviewId, Some(f2)) == ModerateReviewStep(db, reviewId, Some(f2))
  {
    var i := ReviewById(db.reviews, reviewId).value;
    var once := ModerateReviewStep(db, reviewId, Some(f1)).db;
    FirstIndexIs(once.reviews, (rv: Review) => rv.id == reviewId, i);
    assert once.reviews[i := once.reviews[i].(isFlagged := f2)] == db.reviews[i := db.reviews[i].(isFlagged := f2)];
  }

  // Listings

  /** One row of a product's reviews: who wrote it, and what it says. */
  datatype ProductReviewView = ProductReviewView(reviewId: int, customerId: int, rating: int, comment: string, createdAt: int, isFlagged: int)

  /** One row of a customer's reviews: which item, and what it says. */
  datatype CustomerReviewView = CustomerReviewView(reviewId: int, itemId: int, rating: int, comment: string, createdAt: int, isFlagged: int)

  function ProductViewOf(rv: Review): ProductReviewView {
    ProductReviewView(rv.id, rv.customerId, rv.rating, rv.comment, rv.createdAt, rv.isFlagged)
  }

  function CustomerViewOf(rv: Review): CustomerReviewView {
    CustomerReviewView(rv.id, rv.itemId, rv.rating, rv.comment, rv.createdAt, rv.isFlagged)
  }

  function IsForProduct(productId: int): Review -> bool {
    (rv: Review) => rv.itemId == productId
  }

  function IsByCustomer(customerId: int): Review -> bool {
    (rv: Review) => rv.customerId == customerId
  }

  /** The reviews of a product, in table order: one row per review with that ItemID. */
  function ProductReviews(reviews: seq<Review>, productId: int): (r: seq<ProductReviewView>)
    ensures |r| == |Filter(reviews, IsForProduct(productId))|
    ensures forall k :: 0 <= k < |r| ==> r[k] == ProductViewOf(Filter(reviews, IsForProduct(productId))[k])
    ensures forall v :: v in r <==> exists rv :: rv in reviews && rv.itemId == productId && ProductViewOf(rv) == v
  {
    var matching := Filter(reviews, IsForProduct(productId));
    Map(matching, ProductViewOf)
  }

  /** The reviews a customer wrote, in table order: one row per review with that CustomerID. */
  function CustomerReviews(reviews: seq<Review>, customerId: int): (r: seq<CustomerReviewView>)
    ensures |r| == |Filter(reviews, IsByCustomer(customerId))|
    ensures forall k :: 0 <= k < |r| ==> r[k] == CustomerViewOf(Filter(reviews, IsByCustomer(customerId))[k])
    ensures forall v :: v in r <==> exists rv :: rv in reviews && rv.customerId == customerId && CustomerViewOf(rv) == v
  {
    var matching := Filter(reviews, IsByCustomer(customerId));
    Map(matching, CustomerViewOf)
  }

  /** Every review appears in its product's listing and in its author's listing. */
  lemma ReviewIsListedTwice(reviews: seq<Review>, rv: Review)
    requires rv in reviews
    ensures ProductViewOf(rv) in ProductReviews(reviews, rv.itemId)
    ensures CustomerViewOf(rv) in CustomerReviews(reviews, rv.customerId)
  {
  }

  /** The detailed view of one review: its author's full name and its product's name. */
  datatype ReviewDetails = ReviewDetails(
    reviewId: int, customerName: string, productName: string,
    rating: int, comment: string, createdAt: int, isFlagged: int)

  /** The detail lookup: an unknown review is a 404; a review whose customer or
      product is gone raises when the name is read (500). */
  function GetReviewDetails(db: Db, reviewId: int): (r: Reply<ReviewDetails>)
    ensures ReviewById(db.reviews, reviewId).None? <==> r == Err(Response(404, "Review not found"))
    ensures r.Err? ==> r.resp.code in {404, 500}
    ensures r.Ok? ==>
              exists k :: 0 <= k < |db.reviews| && db.reviews[k].id == reviewId &&
                var rv := db.reviews[k];
                && r.value.reviewId == rv.id && r.value.rating == rv.rating && r.value.comment == rv.comment
                && r.value.createdAt == rv.createdAt && r.value.isFlagged == rv.isFlagged
                && (exists c :: 0 <= c < |db.customers| && db.customers[c].id == rv.customerId
                                && db.customers[c].fullName == r.value.customerName)
                && (exists p :: 0 <= p < |db.items| && db.items[p].id == rv.itemId && db.items[p].name == r.value.productName)
    ensures ReviewById(db.reviews, reviewId).Some? ==>
              var rv := db.reviews[ReviewById(db.reviews, reviewId).value];
              (r == Err(InternalError) <==>
                 CustomerById(db.customers, rv.customerId).None? || ItemById(db.items, rv.itemId).None?)
  {
    match ReviewById(db.reviews, reviewId)
    case None => Err(Response(404, "Review not found"))
    case Some(i) =>
      var rv := db.reviews[i];
      match (CustomerById(db.customers, rv.customerId), ItemById(db.items, rv.itemId))
      case (Some(c), Some(p)) =>
        Ok(ReviewDetails(rv.id, db.customers[c].fullName, db.items[p].name, rv.rating, rv.comment, rv.createdAt, rv.isFlagged))
      case _ => Err(InternalError)
  }

  // The review tests' fixture: one customer and one item, both with id 1

  function ReviewTestStore(): Db {
    Db([Customer(1, "Jane Doe", "janedoe", "hashedpassword", 28, "456 Elm St", "Female", "Married", 30000, 0)],
       [Item(1, "Laptop", "Electronics", 100000, "High-end laptop", 50, 0)],
       [], [], [], [])
  }

  function TestReview(): ReviewForm {
    ReviewForm(Some(1), Some(1), Some(5), Some("Excellent product!"))
  }

  /** The first review submitted gets id 1 and shows up once in each listing. */
  lemma ReviewTestSubmit(now: int)
    ensures var s := SubmitReviewStep(ReviewTestStore(), TestReview(), now);
            && s.resp == Response(201, "Review submitted successfully!")
            && NewReviewId(ReviewTestStore().reviews) == 1
            && |ProductReviews(s.db.reviews, 1)| == 1
            && |CustomerReviews(s.db.reviews, 1)| == 1
  {
    var s := SubmitReviewStep(ReviewTestStore(), TestReview(), now);
    assert s.db.reviews == [Review(1, 1, 1, 5, "Excellent product!", 0, now)];
    assert s.db.reviews[..0] == [];
  }

  /** The detailed view of that review names the fixture's customer and item. */
  lemma ReviewTestDetails(now: int)
    ensures var s := SubmitReviewStep(ReviewTestStore(), TestReview(), now);
            GetReviewDetails(s.db, 1) == Ok(ReviewDetails(1, "Jane Doe", "Laptop", 5, "Excellent product!", now, 0))
  {
    var s := SubmitReviewStep(ReviewTestStore(), TestReview(), now);
    assert s.db.reviews == [Review(1, 1, 1, 5, "Excellent product!", 0, now)];
  }

  /** Updating, moderating and deleting review 1 all succeed, with the tests' texts. */
  lemma ReviewTestChanges(now: int)
    ensures var s := SubmitReviewStep(ReviewTestStore(), TestReview(), now).db;
            && UpdateReviewStep(s, 1, ReviewPatch(Some(4), Some("Good product, but has some flaws."))).resp
               == Response(200, "Review updated successfully!")
            && ModerateReviewStep(s, 1, Some(1)).resp == Response(200, "Review moderation updated successfully!")
            && ModerateReviewStep(s, 1, Some(1)).db.reviews[0].isFlagged == 1
            && DeleteReviewStep(s, 1).resp == Response(200, "Review deleted successfully!")
  {
    var s := SubmitReviewStep(ReviewTestStore(), TestReview(), now).db;
    assert s.reviews == [Review(1, 1, 1, 5, "Excellent product!", 0, now)];
  }
}
